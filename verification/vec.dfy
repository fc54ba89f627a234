/**
  `createVecStore`: one root sequence, read and written whole or per index
  through the `at(index)` focus, and reset as a whole. The store engine and
  the optics library are replaced by plain sequence operations.
 */
module Vec {

  /** A vector store: the sequence it was created from, and the current root. */
  datatype Store<T> = Store(initial: seq<T>, root: seq<T>)

  /** The store right after creation: the root is a shallow copy of the
      initial sequence, element for element. */
  function Create<T>(initial: seq<T>): (s: Store<T>)
    ensures s.initial == initial
    ensures |s.root| == |initial|
    ensures forall i :: 0 <= i < |initial| ==> s.root[i] == initial[i]
  {
    Store(initial, initial)
  }

  /** `getItem(index)`: the `at(index)` focus read. */
  function GetItem<T>(s: Store<T>, index: int): (v: T)
    requires 0 <= index < |s.root|
    ensures v == s.root[index]
  {
    s.root[index]
  }

  /** `getState()`: the whole root, which agrees with every per-index read. */
  function GetState<T>(s: Store<T>): (r: seq<T>)
    ensures |r| == |s.root|
    ensures forall i :: 0 <= i < |r| ==> r[i] == GetItem(s, i)
  {
    s.root
  }

  /** `setState(state)`: the whole root replaced. */
  function SetState<T>(s: Store<T>, state: seq<T>): (r: Store<T>)
    ensures r.initial == s.initial
    ensures GetState(r) == state
  {
    s.(root := state)
  }

  /** `setItem(index, value)`: the `at(index)` focus write. */
  function SetItem<T>(s: Store<T>, index: int, value: T): (r: Store<T>)
    requires 0 <= index < |s.root|
    ensures r.initial == s.initial
    ensures |r.root| == |s.root|
    ensures GetItem(r, index) == value
    ensures forall j :: 0 <= j < |s.root| && j != index ==> r.root[j] == s.root[j]
  {
    s.(root := s.root[index := value])
  }

  /** `resetState()`: the whole root replaced by a copy of the initial
      sequence; there is no per-index variant. */
  function ResetState<T>(s: Store<T>): (r: Store<T>)
    ensures r.initial == s.initial
    ensures |r.root| == |s.initial|
    ensures forall i :: 0 <= i < |r.root| ==> r.root[i] == s.initial[i]
  {
    s.(root := s.initial)
  }

  /** Resetting twice is resetting once. */
  lemma ResetIdempotent<T>(s: Store<T>)
    ensures ResetState(ResetState(s)) == ResetState(s)
  {
  }

  /** Writing one index and reading any index back. */
  lemma SetItemThenGetItem<T>(s: Store<T>, index: int, value: T, other: int)
    requires 0 <= index < |s.root| && 0 <= other < |s.root|
    ensures GetItem(SetItem(s, index, value), other) ==
      if other == index then value else GetItem(s, other)
  {
  }

  /** The store's public write operations. */
  datatype Op<T> = SetStateOp(state: seq<T>) | SetItemOp(index: int, value: T) | ResetStateOp

  predicate Enabled<T>(s: Store<T>, op: Op<T>) {
    op.SetItemOp? ==> 0 <= op.index < |s.root|
  }

  function Apply<T>(s: Store<T>, op: Op<T>): (r: Store<T>)
    requires Enabled(s, op)
    ensures r.initial == s.initial
    ensures !op.SetStateOp? && |s.root| == |s.initial| ==> |r.root| == |s.root|
  {
    match op
    case SetStateOp(state) => SetState(s, state)
    case SetItemOp(i, v) => SetItem(s, i, v)
    case ResetStateOp => ResetState(s)
  }

  predicate Runnable<T>(s: Store<T>, ops: seq<Op<T>>)
    decreases |ops|
  {
    |ops| == 0 || (Enabled(s, ops[0]) && Runnable(Apply(s, ops[0]), ops[1..]))
  }

  /** No whole-sequence write in a history. */
  predicate ItemWritesOnly<T>(ops: seq<Op<T>>) {
    forall i :: 0 <= i < |ops| ==> !ops[i].SetStateOp?
  }

  /** A history of writes applied in order. The initial sequence never
      changes, and without whole-sequence writes neither does the length. */
  function Run<T>(s: Store<T>, ops: seq<Op<T>>): (r: Store<T>)
    requires Runnable(s, ops)
    ensures r.initial == s.initial
    ensures ItemWritesOnly(ops) && |s.root| == |s.initial| ==> |r.root| == |s.root|
    decreases |ops|
  {
    if |ops| == 0 then s
    else
      assert ItemWritesOnly(ops) ==> ItemWritesOnly(ops[1..]) by {
        assert forall i :: 0 <= i < |ops| - 1 ==> ops[1..][i] == ops[i + 1];
      }
      Run(Apply(s, ops[0]), ops[1..])
  }

  /** A reset after any history gives back the initial sequence. */
  lemma ResetAfterAnyHistory<T>(initial: seq<T>, ops: seq<Op<T>>)
    requires Runnable(Create(initial), ops)
    ensures GetState(ResetState(Run(Create(initial), ops))) == initial
  {
  }

  /** The worked case: `[1, 2, 3]` with index 1 set to 9. */
  lemma SetItemExample()
    ensures GetState(SetItem(Create([1, 2, 3]), 1, 9)) == [1, 9, 3]
  {
  }
}
