/**
 * The in-memory `SampleRepositoryMap` of the later snapshot
 * (app/src/tests/sample_usecase_test.rs), whose repository contract has only
 * `save` and `find_all`. `save` either allocates a new id or upserts at the
 * sample's own id, depending on `Entity::is_new`.
 */
module AppSampleStore {
  import opened Wrappers
  import opened Entity
  import opened RowTable
  import AppDiagnostics

  /** The database pool the constructor is handed and ignores. */
  type DbPool

  class SampleRepositoryMap {
    var cellMap: Rows

    /** `SampleRepositoryMap::new`: the pool is ignored and the store starts empty. */
    constructor (pool: DbPool)
      ensures cellMap == map[]
    {
      cellMap := map[];
    }

    /**
     * `save`. `isNew` is `Entity::is_new(&sample)`, which this snapshot only
     * declares. A new sample gets 0 in an empty store and otherwise the largest
     * stored id plus one; any other sample is upserted at its own id.
     */
    method Save(sample: Sample, isNew: bool) returns (r: AppDiagnostics.Outcome<Sample>)
      requires isNew ==> RoomForNextId(cellMap)
      modifies this
      ensures r.Ok? && r.value.name == sample.name
      ensures isNew ==> r.value.id as int == NextId(old(cellMap)) && r.value.id !in old(cellMap)
      ensures !isNew ==> r.value == sample
      ensures cellMap == old(cellMap)[r.value.id := sample.name]
      ensures old(cellMap).Keys <= cellMap.Keys
      ensures |cellMap| == |old(cellMap)| + (if isNew || sample.id !in old(cellMap) then 1 else 0)
    {
      if isNew {
        var id: i64;
        if |cellMap| == 0 {
          id := 0;
        } else {
          var top := MaxKey(cellMap);
          id := top + 1;
        }
        cellMap := cellMap[id := sample.name];
        r := Ok(Sample(id, sample.name));
      } else {
        cellMap := cellMap[sample.id := sample.name];
        r := Ok(Sample(sample.id, sample.name));
      }
    }

    /** `find_all`: one sample per stored row, in no promised order. */
    method FindAll() returns (r: AppDiagnostics.Outcome<seq<Sample>>)
      ensures r.Ok? && Lists(r.value, cellMap)
    {
      var samples := Collect(cellMap);
      r := Ok(samples);
    }
  }
}
