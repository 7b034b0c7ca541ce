/**
 * The in-memory `SampleRepositoryMap` of src/tests/sample_usecase_test.rs, an
 * implementation of the `BasicRepository<Sample>` contract of
 * src/repository/basic_repository.rs over a map from id to name. Every
 * operation answers with a `diagnostics::Result`; this store never fails, but a
 * missing row is reported as `RowNotFound` by `find_by_id`.
 */
module SampleStore {
  import opened Wrappers
  import opened Entity
  import opened RowTable
  import Diagnostics

  /** The shared application state the store is derived from; the map store ignores it. */
  type AppState

  /**
   * `find_all_by_id`: for each requested id in turn, the stored sample with
   * that id; ids that are not stored are skipped without an error.
   */
  function Select(rows: Rows, ids: seq<i64>): (r: seq<Sample>)
    ensures |r| <= |ids|
    ensures forall x :: x in r <==> x.id in ids && x.id in rows && rows[x.id] == x.name
  {
    if ids == [] then []
    else
      var last := ids[|ids| - 1];
      var init := Select(rows, ids[..|ids| - 1]);
      assert forall k :: k in ids <==> k in ids[..|ids| - 1] || k == last;
      init + if last in rows then [Sample(last, rows[last])] else []
  }

  /** Selecting over a concatenation of id lists concatenates the selections: order and repetitions are kept. */
  lemma {:induction false} SelectAppend(rows: Rows, a: seq<i64>, b: seq<i64>)
    ensures Select(rows, a + b) == Select(rows, a) + Select(rows, b)
    decreases |b|
  {
    if b != [] {
      var b' := b[..|b| - 1];
      SelectAppend(rows, a, b');
      assert (a + b)[..|a + b| - 1] == a + b';
      assert (a + b)[|a + b| - 1] == b[|b| - 1];
      var last := b[|b| - 1];
      var tail := if last in rows then [Sample(last, rows[last])] else [];
      assert Select(rows, a + b) == Select(rows, a + b') + tail;
      assert Select(rows, b) == Select(rows, b') + tail;
    } else {
      assert a + b == a;
    }
  }

  /** A single stored id selects its sample and a single missing id selects nothing. */
  lemma SelectOne(rows: Rows, id: i64)
    ensures Select(rows, [id]) == if id in rows then [Sample(id, rows[id])] else []
  {
    assert [id][..0] == [];
  }

  /** The ids listed in `ids`. */
  function Elements(ids: seq<i64>): set<i64> {
    set k | k in ids
  }

  class SampleRepositoryMap {
    var rows: Rows

    /** `SampleRepositoryMap::new`. */
    constructor ()
      ensures rows == map[]
    {
      rows := map[];
    }

    /** `FromRef<AppState>`: a fresh, empty store whatever the state. */
    static method FromRef(state: AppState) returns (repo: SampleRepositoryMap)
      ensures fresh(repo) && repo.rows == map[]
    {
      repo := new SampleRepositoryMap();
    }

    /**
     * `create`: the incoming id is ignored; the new row gets 0 in an empty
     * store and otherwise the largest stored id plus one.
     */
    method Create(entity: Sample) returns (r: Diagnostics.Outcome<Sample>)
      requires RoomForNextId(rows)
      modifies this
      ensures r.Ok? && r.value.name == entity.name && r.value.id as int == NextId(old(rows))
      ensures r.value.id !in old(rows)
      ensures rows == old(rows)[r.value.id := entity.name]
      ensures |rows| == |old(rows)| + 1
    {
      var id: i64;
      if |rows| == 0 {
        id := 0;
      } else {
        var top := MaxKey(rows);
        id := top + 1;
      }
      rows := rows[id := entity.name];
      r := Ok(Sample(id, entity.name));
    }

    /** `find_all`: one sample per stored row, in no promised order. */
    method FindAll() returns (r: Diagnostics.Outcome<seq<Sample>>)
      ensures r.Ok? && Lists(r.value, rows)
    {
      var samples := Collect(rows);
      r := Ok(samples);
    }

    /** `find_by_id`: the stored sample, or `RowNotFound`. */
    method FindById(id: i64) returns (r: Diagnostics.Outcome<Sample>)
      ensures id in rows ==> r == Ok(Sample(id, rows[id]))
      ensures id !in rows ==> r == Err(Diagnostics.RowNotFound)
    {
      if id in rows {
        r := Ok(Sample(id, rows[id]));
      } else {
        r := Err(Diagnostics.RowNotFound);
      }
    }

    /** `find_all_by_id`: a filter over the requested ids. */
    method FindAllById(ids: seq<i64>) returns (r: Diagnostics.Outcome<seq<Sample>>)
      ensures r == Ok(Select(rows, ids))
    {
      var samples := [];
      for i := 0 to |ids|
        invariant samples == Select(rows, ids[..i])
      {
        assert ids[..i + 1][..i] == ids[..i];
        if ids[i] in rows {
          samples := samples + [Sample(ids[i], rows[ids[i]])];
        }
      }
      assert ids[..|ids|] == ids;
      r := Ok(samples);
    }

    /** `update`: an upsert of the sample's name at the sample's id. */
    method Update(entity: Sample) returns (r: Diagnostics.Outcome<Sample>)
      modifies this
      ensures r == Ok(entity)
      ensures rows == old(rows)[entity.id := entity.name]
    {
      rows := rows[entity.id := entity.name];
      r := Ok(Sample(entity.id, entity.name));
    }

    /** The trait's default `delete`: `delete_by_id` of the entity's id, its error passed on. */
    method Delete(entity: Sample) returns (r: Diagnostics.Outcome<()>)
      modifies this
      ensures r == Ok(())
      ensures rows == old(rows) - {entity.GetId()}
    {
      var deleted := DeleteById(entity.GetId());
      match deleted
      case Err(e) => r := Err(e);
      case Ok(_) => r := Ok(());
    }

    /** `delete_all`. */
    method DeleteAll() returns (r: Diagnostics.Outcome<()>)
      modifies this
      ensures r == Ok(()) && rows == map[]
    {
      rows := map[];
      r := Ok(());
    }

    /** `delete_by_id`: removes the row if there is one; deleting a missing id is not an error. */
    method DeleteById(id: i64) returns (r: Diagnostics.Outcome<()>)
      modifies this
      ensures r == Ok(())
      ensures rows == old(rows) - {id}
    {
      rows := rows - {id};
      r := Ok(());
    }

    /** `delete_all_by_id`: removes every listed id, one after the other. */
    method DeleteAllById(ids: seq<i64>) returns (r: Diagnostics.Outcome<()>)
      modifies this
      ensures r == Ok(())
      ensures rows == old(rows) - Elements(ids)
    {
      for i := 0 to |ids|
        invariant rows == old(rows) - Elements(ids[..i])
      {
        assert Elements(ids[..i + 1]) == Elements(ids[..i]) + {ids[i]} by {
          assert ids[..i + 1] == ids[..i] + [ids[i]];
        }
        rows := rows - {ids[i]};
      }
      assert ids[..|ids|] == ids;
      r := Ok(());
    }
  }
}
