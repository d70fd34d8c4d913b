/** ExpressionDB.java: the flags packed into a history row, and the allocation of
    row indices. The SQLite table is modelled by the set of its row ids; the
    queries for the smallest and largest id and the row insert are results the
    methods receive as arguments. */
module History {
  import opened Wrappers

  /** Bit of the flags column recording degree mode. */
  const DEGREE_MODE: bv32 := 2
  /** Bit of the flags column recording that the evaluation used the long timeout. */
  const LONG_TIMEOUT: bv32 := 1
  /** New negative indices are always below this one. */
  const MAXIMUM_MIN_INDEX: int := -10

  /** `flagsFromDegreeAndTimeout`: each flag in its own bit, every other bit clear. */
  function FlagsFromDegreeAndTimeout(degreeMode: bool, longTimeout: bool): (flags: bv32)
    ensures DegreeModeFromFlags(flags) == degreeMode
    ensures LongTimeoutFromFlags(flags) == longTimeout
    ensures flags & !(DEGREE_MODE | LONG_TIMEOUT) == 0
  {
    (if degreeMode then DEGREE_MODE else 0) | (if longTimeout then LONG_TIMEOUT else 0)
  }

  /** `degreeModeFromFlags`. */
  predicate DegreeModeFromFlags(flags: bv32)
  {
    flags & DEGREE_MODE != 0
  }

  /** `longTimeoutFromFlags`. */
  predicate LongTimeoutFromFlags(flags: bv32)
  {
    flags & LONG_TIMEOUT != 0
  }

  /** Flags that use only the two defined bits are exactly those some pair of
      booleans packs to, so packing after unpacking gives them back. */
  lemma FlagsFromUnpacked(flags: bv32)
    requires flags & !(DEGREE_MODE | LONG_TIMEOUT) == 0
    ensures FlagsFromDegreeAndTimeout(DegreeModeFromFlags(flags), LongTimeoutFromFlags(flags)) == flags
  {
  }

  /** `RowData`: a saved expression, its packed flags and its time stamp (0 until the
      row is written). */
  datatype RowData = RowData(expression: seq<bv8>, flags: bv32, timeStamp: int)
  {
    predicate DegreeMode() { DegreeModeFromFlags(flags) }

    predicate LongTimeout() { LongTimeoutFromFlags(flags) }
  }

  /** The client constructor of `RowData`: the accessors give back the booleans. */
  function NewRowData(expression: seq<bv8>, degreeMode: bool, longTimeout: bool, timeStamp: int): (r: RowData)
    ensures r.DegreeMode() == degreeMode && r.LongTimeout() == longTimeout
    ensures r.expression == expression && r.timeStamp == timeStamp
  {
    RowData(expression, FlagsFromDegreeAndTimeout(degreeMode, longTimeout), timeStamp)
  }

  /** The index bounds `mMinIndex` and `mMaxIndex`. */
  datatype Bounds = Bounds(minIndex: int, maxIndex: int)

  /** What the allocator keeps once the bounds are known: the negative bound is at
      most MAXIMUM_MIN_INDEX, the positive one at least 0, and every row id lies
      between them. */
  predicate Covers(b: Bounds, ids: set<int>)
  {
    b.minIndex <= MAXIMUM_MIN_INDEX && 0 <= b.maxIndex
    && forall i :: i in ids ==> b.minIndex <= i <= b.maxIndex
  }

  /** What the smallest-id query answers: None for an empty table. */
  predicate IsMinimum(m: Option<int>, ids: set<int>)
  {
    (m.None? <==> ids == {}) && (m.Some? ==> m.value in ids && forall i :: i in ids ==> m.value <= i)
  }

  /** What the largest-id query answers: None for an empty table. */
  predicate IsMaximum(m: Option<int>, ids: set<int>)
  {
    (m.None? <==> ids == {}) && (m.Some? ==> m.value in ids && forall i :: i in ids ==> i <= m.value)
  }

  /** The bounds `AsyncInitializer` computes from the smallest and largest row id:
      the smallest id but at most MAXIMUM_MIN_INDEX, the largest but at least 0. */
  function InitialBounds(dbMin: Option<int>, dbMax: Option<int>): (b: Bounds)
    ensures b.minIndex == if dbMin.Some? && dbMin.value < MAXIMUM_MIN_INDEX then dbMin.value else MAXIMUM_MIN_INDEX
    ensures b.maxIndex == if dbMax.Some? && dbMax.value > 0 then dbMax.value else 0
    ensures forall ids: set<int> :: IsMinimum(dbMin, ids) && IsMaximum(dbMax, ids) ==> Covers(b, ids)
  {
    var min := if dbMin.None? then MAXIMUM_MIN_INDEX
               else if dbMin.value < MAXIMUM_MIN_INDEX then dbMin.value else MAXIMUM_MIN_INDEX;
    var max := if dbMax.None? then 0 else if dbMax.value > 0 then dbMax.value else 0;
    Bounds(min, max)
  }

  /** The index `addRow` allocates and the bounds after it: one below the negative
      bound, or one above the positive bound. The new index lies outside every
      index the old bounds cover, a negative one below MAXIMUM_MIN_INDEX, and the
      new bounds cover it. */
  function Allocate(b: Bounds, negative: bool): (r: (Bounds, int))
    ensures negative ==> r.1 < b.minIndex && r.0 == b.(minIndex := r.1)
    ensures !negative ==> r.1 > b.maxIndex && r.0 == b.(maxIndex := r.1)
    ensures forall ids: set<int> :: Covers(b, ids) ==> r.1 !in ids && Covers(r.0, ids + {r.1})
    ensures Covers(b, {}) && negative ==> r.1 < MAXIMUM_MIN_INDEX
  {
    if negative then (b.(minIndex := b.minIndex - 1), b.minIndex - 1)
    else (b.(maxIndex := b.maxIndex + 1), b.maxIndex + 1)
  }

  /** Allocation never hands out the same index twice: after any two allocations
      from covering bounds, the indices differ and neither was already a row. */
  lemma AllocationsDistinct(b: Bounds, ids: set<int>, first: bool, second: bool)
    requires Covers(b, ids)
    ensures var a1 := Allocate(b, first);
            var a2 := Allocate(a1.0, second);
            a1.1 != a2.1 && a1.1 !in ids && a2.1 !in ids + {a1.1}
  {
  }

  /** The history table's index bookkeeping: the row ids present, the bounds, and
      whether the bounds have been computed. */
  class ExpressionDB {
    var ids: set<int>
    var minIndex: int
    var maxIndex: int
    var minMaxValid: bool

    function Range(): Bounds
      reads this
    {
      Bounds(minIndex, maxIndex)
    }

    predicate Valid()
      reads this
    {
      minMaxValid ==> Covers(Range(), ids)
    }

    /** Opening the database: the bounds are not known until the initializer runs. */
    constructor (rows: set<int>)
      ensures Valid() && ids == rows && !minMaxValid
    {
      ids := rows;
      minIndex := 0;
      maxIndex := 0;
      minMaxValid := false;
    }

    /** The end of `AsyncInitializer.doInBackground`, given the answers to the
        smallest-id and largest-id queries. */
    method Initialize(dbMin: Option<int>, dbMax: Option<int>)
      requires IsMinimum(dbMin, ids) && IsMaximum(dbMax, ids)
      modifies this
      ensures Valid() && minMaxValid && ids == old(ids)
      ensures Range() == InitialBounds(dbMin, dbMax)
    {
      var min, max;
      if dbMin.None? {
        min := MAXIMUM_MIN_INDEX;
      } else {
        min := if dbMin.value < MAXIMUM_MIN_INDEX then dbMin.value else MAXIMUM_MIN_INDEX;
      }
      if dbMax.None? {
        max := 0;
      } else {
        max := if dbMax.value > 0 then dbMax.value else 0;
      }
      minIndex := min;
      maxIndex := max;
      minMaxValid := true;
    }

    /** `eraseAll`: the table is dropped and recreated empty, and the bounds reset. */
    method EraseAll()
      requires Valid()
      modifies this
      ensures Valid() && ids == {} && minIndex == MAXIMUM_MIN_INDEX && maxIndex == 0
      ensures minMaxValid == old(minMaxValid)
    {
      ids := {};
      minIndex := MAXIMUM_MIN_INDEX;
      maxIndex := 0;
    }

    /** `addRow`, given the id the insert reports. Waiting for the bounds becomes the
        precondition that they are known. An insert that reports a different id is
        the fatal assertion error, returned as Err with the failed insert leaving
        the table unchanged. */
    method AddRow(negative: bool, inserted: int) returns (r: Result<int, int>)
      requires Valid() && minMaxValid
      modifies this
      ensures Valid() && minMaxValid
      ensures var a := Allocate(old(Range()), negative);
              Range() == a.0
              && (r.Ok? <==> inserted == a.1)
              && (r.Ok? ==> r.value == a.1 && ids == old(ids) + {a.1})
              && (r.Err? ==> r.error == inserted && ids == old(ids))
      ensures r.Ok? ==> r.value !in old(ids)
    {
      var newIndex;
      if negative {
        newIndex := minIndex - 1;
        minIndex := newIndex;
      } else {
        newIndex := maxIndex + 1;
        maxIndex := newIndex;
      }
      if inserted != newIndex {
        return Err(inserted);
      }
      ids := ids + {newIndex};
      r := Ok(inserted);
    }
  }
}
