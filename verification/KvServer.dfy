/** The two key-value servers over an abstract store, and batching against single writes. */
module KvServer {
  import opened Prelude
  import EntryQueue

  type Bytes = string  // a Go string or byte slice

  datatype PutRequest = PutRequest(key: Bytes, value: Bytes)

  type Store = map<Bytes, Bytes>

  datatype StoreError = WriteFailed | NotFound

  // ---- the store ----------------------------------------------------------------------------

  function Write(store: Store, r: PutRequest): Store {
    store[r.key := r.value]
  }

  /** A write batch, or the same requests one by one, in order. */
  function WriteAll(store: Store, rs: seq<PutRequest>): Store {
    if rs == [] then store else Write(WriteAll(store, rs[..|rs| - 1]), rs[|rs| - 1])
  }

  /** An empty value reads as a missing key. */
  function Lookup(store: Store, key: Bytes): Option<Bytes> {
    if key in store && store[key] != [] then Some(store[key]) else None
  }

  /** The last request for a key. */
  function LastFor(rs: seq<PutRequest>, key: Bytes): Option<Bytes> {
    if rs == [] then None
    else if rs[|rs| - 1].key == key then Some(rs[|rs| - 1].value)
    else LastFor(rs[..|rs| - 1], key)
  }

  /** The last write per key wins; other keys keep their values. */
  lemma {:induction false} LastWriteWins(store: Store, rs: seq<PutRequest>, key: Bytes)
    ensures var s := WriteAll(store, rs);
            match LastFor(rs, key)
            case Some(v) => key in s && s[key] == v && Lookup(s, key) == (if v == [] then None else Some(v))
            case None => (key in s <==> key in store) && (key in s ==> s[key] == store[key])
                         && Lookup(s, key) == Lookup(store, key)
    decreases |rs|
  {
    if rs != [] {
      LastWriteWins(store, rs[..|rs| - 1], key);
    }
  }

  // ---- the servers --------------------------------------------------------------------------

  /** What one Recv of a client stream yields; the stream's end follows the last one. */
  datatype Received = Request(r: PutRequest) | ReceiveError

  /** The requests before the first receive error. */
  function ReceivedPrefix(stream: seq<Received>): seq<PutRequest> {
    if stream == [] || stream[0].ReceiveError? then [] else [stream[0].r] + ReceivedPrefix(stream[1..])
  }

  class KvService {
    var store: Store

    constructor ()
      ensures store == map[]
    {
      store := map[];
    }

    /** Put of both servers; `writeOk` is the store's answer. */
    method Put(req: PutRequest, writeOk: bool) returns (err: Option<StoreError>)
      modifies this
      ensures err == if writeOk then None else Some(WriteFailed)
      ensures store == if writeOk then Write(old(store), req) else old(store)
    {
      if !writeOk {
        return Some(WriteFailed);
      }
      store := store[req.key := req.value];
      return None;
    }

    method Get(key: Bytes) returns (r: Option<Bytes>)
      ensures r == Lookup(store, key)
    {
      if key in store && |store[key]| != 0 {
        return Some(store[key]);
      }
      return None;
    }

    /** A receive error ends the stream like its end does: what arrived before it is committed. */
    method PutStream(stream: seq<Received>, commitOk: bool) returns (err: Option<StoreError>)
      modifies this
      ensures err == if commitOk then None else Some(WriteFailed)
      ensures store == if commitOk then WriteAll(old(store), ReceivedPrefix(stream)) else old(store)
    {
      var wb: seq<PutRequest> := [];
      var i := 0;
      while i < |stream|
        invariant i <= |stream|
        invariant wb + ReceivedPrefix(stream[i..]) == ReceivedPrefix(stream)
      {
        assert stream[i..][1..] == stream[i + 1..];
        if stream[i].ReceiveError? {
          break;
        }
        ghost var rest := ReceivedPrefix(stream[i + 1..]);
        assert wb + ([stream[i].r] + rest) == wb + [stream[i].r] + rest;
        wb := wb + [stream[i].r];
        i := i + 1;
      }
      assert wb == ReceivedPrefix(stream);
      if !commitOk {
        return Some(WriteFailed);
      }
      Commit(wb);
      assert store == WriteAll(old(store), ReceivedPrefix(stream));
      return None;
    }

    method MultiPut(reqs: seq<PutRequest>, commitOk: bool) returns (err: Option<StoreError>)
      modifies this
      ensures err == if commitOk then None else Some(WriteFailed)
      ensures store == if commitOk then WriteAll(old(store), reqs) else old(store)
    {
      var wb: seq<PutRequest> := [];
      for i := 0 to |reqs|
        invariant wb == reqs[..i]
      {
        wb := wb + [reqs[i]];
      }
      assert reqs[..|reqs|] == reqs;
      if !commitOk {
        return Some(WriteFailed);
      }
      Commit(wb);
      return None;
    }

    /** The store applies a batch in order. */
    method Commit(wb: seq<PutRequest>)
      modifies this
      ensures store == WriteAll(old(store), wb)
    {
      for i := 0 to |wb|
        invariant store == WriteAll(old(store), wb[..i])
      {
        assert wb[..i + 1][..i] == wb[..i];
        store := store[wb[i].key := wb[i].value];
      }
      assert wb[..|wb|] == wb;
    }
  }

  // ---- batching refines single writes -------------------------------------------------------

  lemma {:induction false} WriteAllAppend(store: Store, a: seq<PutRequest>, b: seq<PutRequest>)
    ensures WriteAll(store, a + b) == WriteAll(WriteAll(store, a), b)
    decreases |b|
  {
    if b == [] {
      assert a + b == a;
    } else {
      var init := b[..|b| - 1];
      WriteAllAppend(store, a, init);
      assert (a + b)[..|a + b| - 1] == a + init;
    }
  }

  /** A stream of requests all of which arrive. */
  function AllArrive(rs: seq<PutRequest>): seq<Received> {
    seq(|rs|, i requires 0 <= i < |rs| => Request(rs[i]))
  }

  lemma {:induction false} AllArriveReceived(rs: seq<PutRequest>)
    ensures ReceivedPrefix(AllArrive(rs)) == rs
    decreases |rs|
  {
    if rs != [] {
      assert AllArrive(rs)[1..] == AllArrive(rs[1..]);
      AllArriveReceived(rs[1..]);
    }
  }

  /** A receive that fails after some requests commits exactly those. */
  lemma {:induction false} FailedReceiveCommitsPrefix(rs: seq<PutRequest>, rest: seq<Received>)
    ensures ReceivedPrefix(AllArrive(rs) + [ReceiveError] + rest) == rs
    decreases |rs|
  {
    if rs == [] {
      assert AllArrive(rs) + [ReceiveError] + rest == [ReceiveError] + rest;
    } else {
      FailedReceiveCommitsPrefix(rs[1..], rest);
      assert (AllArrive(rs) + [ReceiveError] + rest)[1..] == AllArrive(rs[1..]) + [ReceiveError] + rest;
    }
  }

  /** The store after applying each batch whole, in order. */
  function WriteBatches(store: Store, batches: seq<seq<PutRequest>>): Store {
    if batches == [] then store
    else WriteAll(WriteBatches(store, batches[..|batches| - 1]), ReceivedPrefix(AllArrive(batches[|batches| - 1])))
  }

  lemma {:induction false} BatchesAreConcat(store: Store, batches: seq<seq<PutRequest>>)
    ensures WriteBatches(store, batches) == WriteAll(store, EntryQueue.Concat(batches))
    decreases |batches|
  {
    if batches != [] {
      var last := batches[|batches| - 1];
      BatchesAreConcat(store, batches[..|batches| - 1]);
      AllArriveReceived(last);
      WriteAllAppend(store, EntryQueue.Concat(batches[..|batches| - 1]), last);
    }
  }

  /** Any run of the queue ended by a last Get, with every batch applied whole before the next Get,
      leaves the store that writing every accepted request singly would leave. */
  lemma DrainedQueueEqualsSingleWrites(store: Store, size: nat, ops: seq<EntryQueue.Op<PutRequest>>)
    ensures var q := EntryQueue.GetFrom(EntryQueue.Run(EntryQueue.New(size), ops)).0;
            WriteBatches(store, q.batches) == WriteAll(store, EntryQueue.Accepts(size, 0, false, ops))
  {
    var q := EntryQueue.Run(EntryQueue.New<PutRequest>(size), ops);
    EntryQueue.BatchesAreAccepted<PutRequest>(size, ops);
    EntryQueue.ConcatSnoc(q.batches, q.pending);
    BatchesAreConcat(store, q.batches + [q.pending]);
  }

  // ---- the queue object feeding the server -----------------------------------------------------------

  /** Sends a batch to PutStream while other entries keep being added: the slice that Get returned is
      read element by element, one Add before each. */
  method DrainWhileAdding(q: EntryQueue.EntryQueue<PutRequest>, kv: KvService, incoming: seq<PutRequest>)
    requires q.Valid()
    modifies q`idx, q`leftInWrite, q`batches, q`accepted, q.left, q.right, kv
    ensures q.Valid()
    ensures var taken, batch := EntryQueue.GetFrom(old(q.View())).0, old(q.View()).pending;
            kv.store == WriteAll(old(kv.store), batch) && q.View() == AddFirst(taken, incoming, |batch|)
  {
    ghost var batch := q.View().pending;
    var t, sz := q.Get();
    ghost var taken := q.View();
    var stream: seq<Received> := [];
    hide WriteAll, ReceivedPrefix, EntryQueue.AddTo, AllArrive;
    assert stream == AllArrive(batch[..0]) by { ArriveNone(batch); }
    for i := 0 to sz
      invariant q.Valid() && sz == |batch| && t == q.OtherQueue() && sz <= t.Length
      invariant t[..sz] == batch && stream == AllArrive(batch[..i])
      invariant q.View() == AddFirst(taken, incoming, i)
      invariant kv.store == old(kv.store)
    {
      if i < |incoming| {
        var _, _ := q.Add(incoming[i]);
      }
      assert t[i] == t[..sz][i] == batch[i];
      assert AllArrive(batch[..i + 1]) == AllArrive(batch[..i]) + [Request(batch[i])] by { ArriveNext(batch, i); }
      stream := stream + [Request(t[i])];
    }
    assert batch[..sz] == batch;
    assert ReceivedPrefix(stream) == batch by { AllArriveReceived(batch); }
    var _ := kv.PutStream(stream, true);
  }

  lemma ArriveNone(rs: seq<PutRequest>)
    ensures AllArrive(rs[..0]) == []
  {
  }

  lemma ArriveNext(rs: seq<PutRequest>, i: nat)
    requires i < |rs|
    ensures AllArrive(rs[..i + 1]) == AllArrive(rs[..i]) + [Request(rs[i])]
  {
  }

  /** The queue after adding the first n of the entries, if there are that many. */
  function AddFirst(q: EntryQueue.Queue<PutRequest>, rs: seq<PutRequest>, n: nat): EntryQueue.Queue<PutRequest> {
    if n == 0 then q
    else if n > |rs| then AddFirst(q, rs, n - 1)
    else EntryQueue.AddTo(AddFirst(q, rs, n - 1), rs[n - 1]).0
  }

  lemma {:induction false} AddNone(q: EntryQueue.Queue<PutRequest>, n: nat)
    ensures AddFirst(q, [], n) == q
  {
    if n > 0 {
      AddNone(q, n - 1);
    }
  }

  /** A whole run on the queue object, with every batch sent as soon as Get returns it and a last Get at the
      end: the store is the one that writing every accepted request singly leaves. */
  method DrainRun(size: nat, ops: seq<EntryQueue.Op<PutRequest>>, kv: KvService)
    modifies kv
    ensures kv.store == WriteAll(old(kv.store), EntryQueue.Accepts(size, 0, false, ops))
  {
    var q := new EntryQueue.EntryQueue<PutRequest>(size);
    for i := 0 to |ops|
      invariant q.Valid() && fresh(q) && fresh(q.left) && fresh(q.right)
      invariant q.View() == EntryQueue.Run(EntryQueue.New(size), ops[..i])
      invariant kv.store == WriteBatches(old(kv.store), q.View().batches)
    {
      EntryQueue.RunSnoc(EntryQueue.New<PutRequest>(size), ops, i);
      match ops[i] {
        case OpAdd(ent) =>
          var _, _ := q.Add(ent);
        case OpClose =>
          q.Close();
        case OpGet =>
          SendBatch(q, kv);
      }
    }
    assert ops[..|ops|] == ops;
    SendBatch(q, kv);
    DrainedQueueEqualsSingleWrites(old(kv.store), size, ops);
  }

  /** One Get, and its slice sent whole. */
  method SendBatch(q: EntryQueue.EntryQueue<PutRequest>, kv: KvService)
    requires q.Valid()
    modifies q`idx, q`leftInWrite, q`batches, q`accepted, q.left, q.right, kv
    ensures q.Valid() && q.View() == EntryQueue.GetFrom(old(q.View())).0
    ensures forall store ::
              old(kv.store) == WriteBatches(store, old(q.View()).batches) ==>
              kv.store == WriteBatches(store, q.View().batches)
  {
    ghost var before, batch := q.View().batches, q.View().pending;
    DrainWhileAdding(q, kv, []);
    AddNone(EntryQueue.GetFrom(old(q.View())).0, |batch|);
    assert q.View().batches == before + [batch];
    assert (before + [batch])[..|before|] == before;
    AllArriveReceived(batch);
  }
}
