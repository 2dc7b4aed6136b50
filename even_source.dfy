/** `EvenSource`: a source that doubles what its base source produces. */
module EvenSources {
  import opened KotlinInt
  import opened Results
  import opened SourceInterface

  /** `integer()`, given the base source's result: `2 * n` with `Int`
      arithmetic, so always even, and failures pass through. */
  function EvenInteger(base: Result<SourceError, Int32>): (r: Result<SourceError, Int32>)
    ensures base.Failure? ==> r == base
    ensures base.Success? ==> r.Success? && r.data % 2 == 0
    ensures base.Success? ==> r.data == Wrap32(2 * base.data)
    ensures base.Success? ==> Rem(r.data, 2) == 0
  {
    var r := base.Map(n => Wrap32(2 * n as int));
    assert base.Success? ==> r.data % 2 == 0 && Rem(r.data, 2) == 0 by {
      if base.Success? {
        WrapOfEvenIsEven(2 * base.data);
        RemOfEven(r.data);
      }
    }
    r
  }
}
