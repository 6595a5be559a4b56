/**
  The resumable task store (`TaskState`, orchestrate_month.py): a status per
  task key, optional metadata per task key, and the state file, which is
  rewritten after every status change. The file is the `persisted` field; a
  load that finds no readable file starts from empty maps.
*/
module TaskStore {
  import opened Common

  /** A task's metadata dictionary (JSON values are kept as text). */
  type Metadata = map<string, string>

  /** The status a key that was never recorded reads as. */
  const PENDING := "pending"

  /**
    The JSON document of the state file: `slices`, `slice_metadata` and the
    `planned_tasks` entry of `metadata`.
  */
  datatype Snapshot = Snapshot(slices: map<string, string>, sliceMetadata: map<string, Metadata>, plannedTasks: Option<int>)

  /** `state["slices"].get(key, "pending")`. */
  function StatusIn(slices: map<string, string>, key: string): (status: string)
    ensures key in slices ==> status == slices[key]
    ensures key !in slices ==> status == PENDING
  {
    if key in slices then slices[key] else PENDING
  }

  class TaskState {
    var slices: map<string, string>
    var sliceMetadata: map<string, Metadata>
    /** `metadata["planned_tasks"]`: the number of tasks a plan-only run recorded. */
    var plannedTasks: Option<int>
    /** The last document written to the state file. */
    var persisted: Option<Snapshot>

    /** `_load_state`: the parsed file when it exists and is readable, else an empty state. */
    constructor (loaded: Option<Snapshot>)
      ensures loaded.Some? ==> Current() == loaded.value
      ensures loaded.None? ==> Current() == Snapshot(map[], map[], None)
      ensures persisted == loaded
    {
      if loaded.Some? {
        slices := loaded.value.slices;
        sliceMetadata := loaded.value.sliceMetadata;
        plannedTasks := loaded.value.plannedTasks;
      } else {
        slices := map[];
        sliceMetadata := map[];
        plannedTasks := None;
      }
      persisted := loaded;
    }

    /** The document `_save_state` would write now. */
    function Current(): Snapshot
      reads this
    {
      Snapshot(slices, sliceMetadata, plannedTasks)
    }

    function Status(key: string): (status: string)
      reads this
      ensures key !in slices ==> status == PENDING
    {
      StatusIn(slices, key)
    }

    /** `get_slice_metadata`: the stored metadata, or an empty dictionary. */
    function GetMetadata(key: string): (m: Metadata)
      reads this
      ensures key in sliceMetadata ==> m == sliceMetadata[key]
      ensures key !in sliceMetadata ==> m == map[]
    {
      if key in sliceMetadata then sliceMetadata[key] else map[]
    }

    /**
      `set_slice_status`: record the status, record the metadata only when it
      is non-empty (an empty dictionary is falsy), then rewrite the file.
    */
    method SetStatus(key: string, status: string, metadata: Metadata)
      modifies this
      ensures slices == old(slices)[key := status]
      ensures sliceMetadata == if |metadata| > 0 then old(sliceMetadata)[key := metadata] else old(sliceMetadata)
      ensures plannedTasks == old(plannedTasks)
      ensures persisted == Some(Current())
      ensures Status(key) == status
      ensures forall k :: k != key ==> Status(k) == old(Status(k))
    {
      slices := slices[key := status];
      if |metadata| > 0 {
        sliceMetadata := sliceMetadata[key := metadata];
      }
      persisted := Some(Current());
    }

    /** `state["metadata"]["planned_tasks"] = n`: changes memory only; the next save writes it. */
    method SetPlannedTasks(n: int)
      modifies this
      ensures slices == old(slices) && sliceMetadata == old(sliceMetadata) && persisted == old(persisted)
      ensures plannedTasks == Some(n)
    {
      plannedTasks := Some(n);
    }
  }
}
