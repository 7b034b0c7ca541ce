/**
 * `BasicSampleUsecase` (app/src/usecase/sample_usecase.rs): a use-case layer
 * with no state of its own, each of whose operations is one call on the
 * repository it holds, with the repository's error passed on unchanged. It is
 * modelled over the map store of src/tests/sample_usecase_test.rs, whose
 * `create` it calls.
 */
module SampleUsecase {
  import opened Wrappers
  import opened Entity
  import opened RowTable
  import opened SampleStore
  import Diagnostics

  class BasicSampleUsecase {
    const sampleRepository: SampleRepositoryMap

    /** `BasicSampleUsecase::new`: holds the given repository as it is. */
    constructor (repository: SampleRepositoryMap)
      ensures sampleRepository == repository
    {
      sampleRepository := repository;
    }

    /** `FromRef<AppState>`: wraps the repository derived from the state. */
    static method FromRef(state: AppState) returns (usecase: BasicSampleUsecase)
      ensures fresh(usecase) && fresh(usecase.sampleRepository)
      ensures usecase.sampleRepository.rows == map[]
    {
      var repository := SampleRepositoryMap.FromRef(state);
      usecase := new BasicSampleUsecase(repository);
    }

    /** `find_all`: the repository's listing, its error passed on. */
    method FindAll() returns (r: Diagnostics.Outcome<seq<Sample>>)
      ensures r.Ok? && Lists(r.value, sampleRepository.rows)
    {
      var samples := sampleRepository.FindAll();
      match samples
      case Err(e) => r := Err(e);
      case Ok(v) => r := Ok(v);
    }

    /** `create`: the repository's `create`, its result and error passed on. */
    method Create(sample: Sample) returns (r: Diagnostics.Outcome<Sample>)
      requires RoomForNextId(sampleRepository.rows)
      modifies sampleRepository
      ensures r.Ok? && r.value.name == sample.name
      ensures r.value.id as int == NextId(old(sampleRepository.rows))
      ensures sampleRepository.rows == old(sampleRepository.rows)[r.value.id := sample.name]
    {
      var created := sampleRepository.Create(sample);
      match created
      case Err(e) => r := Err(e);
      case Ok(v) => r := Ok(v);
    }
  }

  /** The ids the scenario's two creates are given. */
  lemma ScenarioIds()
    ensures NextId(map[]) == 0 && NextId(map[0 := "s"]) == 1
    ensures RoomForNextId(map[]) && RoomForNextId(map[0 := "s"])
  {
  }

  /** The lookup of the scenario: ids 0 and 1 are stored, 2 and 3 are not. */
  lemma ScenarioLookup(rows: Rows)
    requires rows == map[0 := "s", 1 := "s1"]
    ensures Select(rows, [0, 1, 2, 3]) == [Sample(0, "s"), Sample(1, "s1")]
  {
    var ids: seq<i64> := [0, 1, 2, 3];
    assert ids[..3] == [0, 1, 2] && ids[..3][..2] == [0, 1] && ids[..3][..2][..1] == [0];
    assert Select(rows, [0]) == [Sample(0, "s")] by {
      SelectOne(rows, 0);
    }
    assert Select(rows, [0, 1]) == [Sample(0, "s"), Sample(1, "s1")];
    assert Select(rows, [0, 1, 2]) == [Sample(0, "s"), Sample(1, "s1")];
  }

  /** The only listing of a one-row table is that row. */
  lemma SingleRowListing(samples: seq<Sample>, id: i64, name: string)
    requires Lists(samples, map[id := name])
    ensures samples == [Sample(id, name)]
  {
    ListingSize(samples, map[id := name]);
  }

  /**
   * The `sample_usecase` test on a fresh map store: two creates, a lookup of
   * four ids of which two exist, a delete of the first, and a final listing.
   */
  method SampleUsecaseScenario(state: AppState)
    returns (s: Diagnostics.Outcome<Sample>, s1: Diagnostics.Outcome<Sample>,
             found: Diagnostics.Outcome<seq<Sample>>, remaining: Diagnostics.Outcome<seq<Sample>>)
    ensures s == Ok(Sample(0, "s")) && s1 == Ok(Sample(1, "s1"))
    ensures found == Ok([Sample(0, "s"), Sample(1, "s1")])
    ensures remaining == Ok([Sample(1, "s1")])
  {
    var usecase := BasicSampleUsecase.FromRef(state);
    var repository := usecase.sampleRepository;
    ScenarioIds();
    s := usecase.Create(WithName("s"));
    assert repository.rows == map[0 := "s"];
    s1 := usecase.Create(WithName("s1"));
    assert repository.rows == map[0 := "s", 1 := "s1"];
    found := repository.FindAllById([0, 1, 2, 3]);
    ScenarioLookup(repository.rows);
    var _ := repository.DeleteAllById([0]);
    assert repository.rows == map[1 := "s1"] by {
      assert Elements([0]) == {0};
    }
    remaining := usecase.FindAll();
    SingleRowListing(remaining.value, 1, "s1");
  }
}
