/** The double-buffered queue: batches in order, and how long a batch's slice keeps its contents. */
module EntryQueue {
  import opened Prelude

  // ---- the queue as a value -----------------------------------------------------------------

  /** The capacity, what is pending, what `Get` returned so far, what `Add` accepted, and `stopped`. */
  datatype Queue<T> = Queue(size: nat, pending: seq<T>, batches: seq<seq<T>>, accepted: seq<T>, stopped: bool)

  function New<T>(size: nat): Queue<T> {
    Queue(size, [], [], [], false)
  }

  /** The new queue and Add's two results, (accepted, stopped). */
  function AddTo<T>(q: Queue<T>, ent: T): (Queue<T>, (bool, bool)) {
    if |q.pending| >= q.size then (q, (false, q.stopped))
    else if q.stopped then (q, (false, true))
    else (q.(pending := q.pending + [ent], accepted := q.accepted + [ent]), (true, false))
  }

  function GetFrom<T>(q: Queue<T>): (Queue<T>, seq<T>) {
    (q.(pending := [], batches := q.batches + [q.pending]), q.pending)
  }

  datatype Op<T> = OpAdd(ent: T) | OpGet | OpClose

  function Apply<T>(q: Queue<T>, op: Op<T>): Queue<T> {
    match op
    case OpAdd(ent) => AddTo(q, ent).0
    case OpGet => GetFrom(q).0
    case OpClose => q.(stopped := true)
  }

  function Run<T>(q: Queue<T>, ops: seq<Op<T>>): Queue<T>
    decreases |ops|
  {
    if ops == [] then q else Run(Apply(q, ops[0]), ops[1..])
  }

  function Concat<T>(batches: seq<seq<T>>): seq<T> {
    if batches == [] then [] else Concat(batches[..|batches| - 1]) + batches[|batches| - 1]
  }

  lemma ConcatSnoc<T>(batches: seq<seq<T>>, b: seq<T>)
    ensures Concat(batches + [b]) == Concat(batches) + b
  {
    assert (batches + [b])[..|batches|] == batches;
  }

  /** Nothing is lost, duplicated or reordered, and no batch exceeds the capacity. */
  ghost predicate InOrder<T>(q: Queue<T>) {
    && Concat(q.batches) + q.pending == q.accepted
    && |q.pending| <= q.size
    && forall i :: 0 <= i < |q.batches| ==> |q.batches[i]| <= q.size
  }

  lemma StepInOrder<T>(q: Queue<T>, op: Op<T>)
    requires InOrder(q)
    ensures InOrder(Apply(q, op))
  {
    match op {
      case OpAdd(ent) => Assoc(Concat(q.batches), q.pending, [ent]);
      case OpGet => ConcatSnoc(q.batches, q.pending);
      case OpClose =>
    }
    hide Concat;
  }

  lemma {:induction false} RunInOrder<T>(q: Queue<T>, ops: seq<Op<T>>)
    requires InOrder(q)
    ensures InOrder(Run(q, ops))
    decreases |ops|
  {
    hide InOrder, Apply;
    if ops != [] {
      StepInOrder(q, ops[0]);
      RunInOrder(Apply(q, ops[0]), ops[1..]);
    }
  }

  lemma {:induction false} RunSnoc<T>(q: Queue<T>, ops: seq<Op<T>>, n: nat)
    requires n < |ops|
    ensures Run(q, ops[..n + 1]) == Apply(Run(q, ops[..n]), ops[n])
    decreases n
  {
    hide Apply;
    assert ops[..n + 1][0] == ops[0] && ops[..n + 1][1..] == ops[1..][..n];
    if n > 0 {
      assert ops[..n][1..] == ops[1..][..n - 1];
      RunSnoc(Apply(q, ops[0]), ops[1..], n - 1);
    }
  }

  /** The entries that a run accepts, computed from its operations alone. */
  function Accepts<T>(size: nat, pending: nat, stopped: bool, ops: seq<Op<T>>): seq<T>
    decreases |ops|
  {
    if ops == [] then []
    else match ops[0]
      case OpAdd(ent) =>
        if pending < size && !stopped then [ent] + Accepts(size, pending + 1, stopped, ops[1..])
        else Accepts(size, pending, stopped, ops[1..])
      case OpGet => Accepts(size, 0, stopped, ops[1..])
      case OpClose => Accepts(size, pending, true, ops[1..])
  }

  lemma {:induction false} RunAccepts<T>(q: Queue<T>, ops: seq<Op<T>>)
    ensures Run(q, ops).accepted == q.accepted + Accepts(q.size, |q.pending|, q.stopped, ops)
    decreases |ops|
  {
    if ops != [] {
      RunAccepts(Apply(q, ops[0]), ops[1..]);
      if ops[0].OpAdd? && |q.pending| < q.size && !q.stopped {
        var rest := Accepts(q.size, |q.pending| + 1, false, ops[1..]);
        assert (q.accepted + [ops[0].ent]) + rest == q.accepted + ([ops[0].ent] + rest);
      }
    }
  }

  /** For every run from a new queue: the batches in Get order, then what is pending, are the entries
      whose Add found room in an open queue, in order. */
  lemma BatchesAreAccepted<T>(size: nat, ops: seq<Op<T>>)
    ensures var q := Run(New(size), ops);
            Concat(q.batches) + q.pending == Accepts(size, 0, false, ops)
  {
    RunInOrder(New<T>(size), ops);
    RunAccepts(New<T>(size), ops);
  }

  /** How many entries a run leaves pending, computed from its operations alone. */
  function PendingAfter<T>(size: nat, pending: nat, stopped: bool, ops: seq<Op<T>>): nat
    decreases |ops|
  {
    if ops == [] then pending
    else match ops[0]
      case OpAdd(_) =>
        PendingAfter(size, if pending < size && !stopped then pending + 1 else pending, stopped, ops[1..])
      case OpGet => PendingAfter(size, 0, stopped, ops[1..])
      case OpClose => PendingAfter(size, pending, true, ops[1..])
  }

  lemma {:induction false} RunLeaves<T>(q: Queue<T>, ops: seq<Op<T>>)
    ensures var q' := Run(q, ops);
            && q'.size == q.size && |q'.pending| == PendingAfter(q.size, |q.pending|, q.stopped, ops)
            && (q'.stopped <==> q.stopped || OpClose in ops)
    decreases |ops|
  {
    if ops != [] {
      RunLeaves(Apply(q, ops[0]), ops[1..]);
      assert OpClose in ops <==> ops[0] == OpClose || OpClose in ops[1..];
    }
  }

  /** After any run Add's first result tells whether there was room in an open queue, and then the entry is pending
      last; its second result tells whether the queue was closed, whatever the first. */
  lemma AddAnswers<T>(size: nat, ops: seq<Op<T>>, ent: T)
    ensures var q := Run(New(size), ops);
            var (q', (ok, closed)) := AddTo(q, ent);
            && (ok <==> PendingAfter(size, 0, false, ops) < size && OpClose !in ops)
            && (closed <==> OpClose in ops)
            && q'.pending == (if ok then q.pending + [ent] else q.pending)
  {
    RunLeaves(New<T>(size), ops);
    hide Run;
  }

  // ---- the object ---------------------------------------------------------------------------

  class EntryQueue<T(0)> {
    const size: nat
    const left: array<T>
    const right: array<T>
    var leftInWrite: bool
    var stopped: bool
    var idx: nat

    ghost var batches: seq<seq<T>>
    ghost var accepted: seq<T>

    function TargetQueue(): array<T>
      reads this`leftInWrite
    {
      if leftInWrite then left else right
    }

    function OtherQueue(): array<T>
      reads this`leftInWrite
    {
      if leftInWrite then right else left
    }

    ghost function View(): Queue<T>
      requires idx <= TargetQueue().Length
      reads this, left, right
    {
      Queue(size, TargetQueue()[..idx], batches, accepted, stopped)
    }

    /** The i-th latest batch, 0 being the latest; the first two of a fresh queue count as empty. */
    ghost function Latest(i: nat): seq<T>
      reads this`batches
    {
      if i < |batches| then batches[|batches| - 1 - i] else []
    }

    /** The slice of the latest Get still reads as it was returned; so does the slice of the Get
        before, until something is added. */
    ghost predicate Valid()
      reads this, left, right
    {
      && left != right && left.Length == right.Length == size && idx <= size
      && |Latest(0)| <= size && OtherQueue()[..|Latest(0)|] == Latest(0)
      && (idx == 0 ==> |Latest(1)| <= size && TargetQueue()[..|Latest(1)|] == Latest(1))
    }

    constructor (size: nat)
      ensures Valid() && View() == New(size) && fresh(left) && fresh(right)
    {
      this.size := size;
      left := new T[size];
      right := new T[size];
      leftInWrite, stopped, idx, batches, accepted := false, false, 0, [], [];
    }

    method Close()
      requires Valid()
      modifies this`stopped
      ensures Valid() && View() == Apply(old(View()), OpClose)
    {
      stopped := true;
    }

    method Add(ent: T) returns (ok: bool, closed: bool)
      requires Valid()
      modifies this`idx, this`accepted, TargetQueue()
      ensures Valid() && (View(), (ok, closed)) == AddTo(old(View()), ent)
      ensures closed == old(stopped) && ok == (old(idx) < size && !old(stopped))
      ensures !ok ==> left[..] == old(left[..]) && right[..] == old(right[..])
      ensures OtherQueue()[..] == old(OtherQueue()[..])
      ensures ok ==> TargetQueue()[..] == old(TargetQueue()[..])[old(idx) := ent]
    {
      if idx >= size {
        return false, stopped;
      }
      if stopped {
        return false, true;
      }
      var w := TargetQueue();
      w[idx] := ent;
      idx := idx + 1;
      accepted := accepted + [ent];
      assert w[..idx] == old(TargetQueue()[..idx]) + [ent];
      return true, false;
    }

    /** The slice is the first `sz` elements of the array `t`. */
    method Get() returns (t: array<T>, sz: nat)
      requires Valid()
      modifies this`idx, this`leftInWrite, this`batches
      ensures Valid() && sz <= t.Length && (View(), t[..sz]) == GetFrom(old(View()))
      ensures t == old(TargetQueue()) == OtherQueue()
    {
      sz := idx;
      idx := 0;
      t := TargetQueue();
      batches := batches + [t[..sz]];
      leftInWrite := !leftInWrite;
    }
  }
}
