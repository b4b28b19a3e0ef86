/** An open file: its table metadata and its positions. */
module HandleState {
  import opened Wrappers
  import opened SqlValues
  import opened Relation
  import opened Schema

  /** The logical position: the index in use, the last row's key values and record number, and the
      descending flags the next continuation will use. */
  datatype Cursor = Cursor(
    index: Option<nat>, keys: seq<SqlValue>, desc: seq<bool>, recnum: Option<int>, dir: int, last: Option<int>)

  /** The physical position and the rows read ahead of it. */
  datatype StepPos = StepPos(last: Option<int>, dir: int, cache: seq<Row>, cacheDir: int, any: Option<int>)

  class HandleEntry {
    const meta: TableMeta
    var stepLastRecnum: Option<int>
    var stepDir: int
    var stepCache: seq<Row>
    var stepCacheDir: int
    var getIndexNum: Option<nat>
    var getLastKeys: seq<SqlValue>
    var getLastDesc: seq<bool>
    var getLastRecnum: Option<int>
    var getDir: int
    var lastRecnum: Option<int>

    constructor (meta: TableMeta)
      ensures this.meta == meta
      ensures GetCursor() == Cursor(None, [], [], None, 1, None)
      ensures StepPosition() == StepPos(None, 1, [], 1, None)
    {
      this.meta := meta;
      stepLastRecnum, stepDir, stepCache, stepCacheDir := None, 1, [], 1;
      getIndexNum, getLastKeys, getLastDesc, getLastRecnum, getDir := None, [], [], None, 1;
      lastRecnum := None;
    }

    function GetCursor(): Cursor
      reads this
    {
      Cursor(getIndexNum, getLastKeys, getLastDesc, getLastRecnum, getDir, lastRecnum)
    }

    function StepPosition(): StepPos
      reads this
    {
      StepPos(stepLastRecnum, stepDir, stepCache, stepCacheDir, lastRecnum)
    }
  }
}
