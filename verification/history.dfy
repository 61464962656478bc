/** The linear undo/redo history: a list of snapshots and a cursor on the one
    currently displayed. An index of -1 means no snapshot has been taken yet. */
module History {

  datatype Timeline<S> = Timeline(snapshots: seq<S>, index: int)

  /** The cursor bounds every reachable history keeps: the cursor is a valid
      position, and it is -1 only while the list is still empty. */
  predicate Valid<S>(t: Timeline<S>)
  {
    && -1 <= t.index < |t.snapshots|
    && (|t.snapshots| > 0 ==> 0 <= t.index)
  }

  /** The history the component starts with: `useState([])` and `useState(-1)`. */
  function Empty<S>(): (t: Timeline<S>)
    ensures t.snapshots == [] && t.index == -1
    ensures Valid(t) && !CanUndo(t) && !CanRedo(t)
  {
    Timeline([], -1)
  }

  /** The Undo button is enabled (its `disabled` condition is `historyIndex <= 0`). */
  predicate CanUndo<S>(t: Timeline<S>)
  {
    t.index > 0
  }

  /** The Redo button is enabled (its `disabled` condition is `historyIndex >= history.length - 1`). */
  predicate CanRedo<S>(t: Timeline<S>)
  {
    t.index < |t.snapshots| - 1
  }

  /** Records a snapshot: everything after the cursor is dropped, the snapshot
      is appended and the cursor moves onto it. */
  function Push<S>(t: Timeline<S>, snap: S): (r: Timeline<S>)
    requires Valid(t)
    ensures Valid(r)
    ensures |r.snapshots| == t.index + 2
    ensures r.snapshots[..t.index + 1] == t.snapshots[..t.index + 1]
    ensures r.snapshots[t.index + 1] == snap
    ensures r.index == |r.snapshots| - 1
    ensures CanUndo(r) <==> t.index >= 0
    ensures !CanRedo(r)
  {
    var kept := t.snapshots[..t.index + 1];
    var grown := kept + [snap];
    Timeline(grown, |grown| - 1)
  }

  /** Steps the cursor back one snapshot; a no-op at the first snapshot or
      before any snapshot exists. The list itself never changes. */
  function Undo<S>(t: Timeline<S>): (r: Timeline<S>)
    requires Valid(t)
    ensures Valid(r)
    ensures r.snapshots == t.snapshots
    ensures !CanUndo(t) ==> r == t
    ensures CanUndo(t) ==> r.index == t.index - 1 && CanRedo(r)
  {
    if t.index <= 0 then t else t.(index := t.index - 1)
  }

  /** Steps the cursor forward one snapshot; a no-op at the last snapshot.
      The list itself never changes. */
  function Redo<S>(t: Timeline<S>): (r: Timeline<S>)
    requires Valid(t)
    ensures Valid(r)
    ensures r.snapshots == t.snapshots
    ensures !CanRedo(t) ==> r == t
    ensures CanRedo(t) ==> r.index == t.index + 1 && CanUndo(r)
  {
    if t.index >= |t.snapshots| - 1 then t else t.(index := t.index + 1)
  }

  /** Undo followed by redo returns to the same place. */
  lemma UndoThenRedo<S>(t: Timeline<S>)
    requires Valid(t) && CanUndo(t)
    ensures Redo(Undo(t)) == t
  {
  }

  /** Redo followed by undo returns to the same place. */
  lemma RedoThenUndo<S>(t: Timeline<S>)
    requires Valid(t) && CanRedo(t)
    ensures Undo(Redo(t)) == t
  {
  }

  /** The truncation law: after an undo, a new snapshot replaces the one that
      could have been redone. A history of N snapshots at its tail still holds
      N snapshots afterwards, the earlier ones untouched, and redo is disabled. */
  lemma UndoThenPushReplacesRedoable<S>(t: Timeline<S>, snap: S)
    requires Valid(t) && CanUndo(t) && t.index == |t.snapshots| - 1
    ensures var r := Push(Undo(t), snap);
      && |r.snapshots| == |t.snapshots|
      && r.snapshots[..t.index] == t.snapshots[..t.index]
      && r.snapshots[t.index] == snap
      && !CanRedo(r)
  {
  }
}
