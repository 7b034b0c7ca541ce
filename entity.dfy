/** The `Sample` entity (src/entity/sample.rs) and its identifier type. */
module Entity {

  /** Rust's `i64`. */
  newtype i64 = x: int | -0x8000_0000_0000_0000 <= x < 0x8000_0000_0000_0000

  const I64Max: i64 := 0x7FFF_FFFF_FFFF_FFFF

  /** `Sample { id, name }`; the datatype constructor is `Sample::new`. */
  datatype Sample = Sample(id: i64, name: string) {

    /** `Entity::get_id`. */
    function GetId(): i64 {
      id
    }
  }

  /** `Sample::with_name`: a sample whose id is still `i64::default()`. */
  function WithName(name: string): (s: Sample)
    ensures s.GetId() == 0 && s.name == name
  {
    Sample(0, name)
  }
}
