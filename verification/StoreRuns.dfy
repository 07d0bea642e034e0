/**
  Runs of the pipelined client over nodes that serve GET and SET besides MGET, DEL and MSET:
  what the general theorem asks of other commands holds of these two, and two runs in which a
  GET is handed the array that answers a part of an MGET.
  */
module StoreRuns {
  import opened Bytes
  import opened Resp
  import opened Commands
  import opened CommandRoundTrip
  import opened Format
  import opened KeySlot
  import opened Store
  import opened FragmentMeaning
  import opened FragmentBytes
  import opened Fragment
  import opened ClusterCommand
  import opened ClientPlan
  import opened OneStore
  import P = Pipeline
  import O = PipelineOrder
  import L = PipelineLoss

  /** A server that knows GET and SET. */
  function Plain(argv: seq<bytes>, store: Store): (Reply, Store) {
    if |argv| == 2 && TypeOf(argv[0]) == GET then (Get(store, argv[1]), store)
    else if |argv| == 3 && TypeOf(argv[0]) == SET then (Status(OK), store[argv[1] := argv[2]])
    else (Error([]), store)
  }

  predicate Known(argv: seq<bytes>) {
    (|argv| == 2 && TypeOf(argv[0]) == GET) || (|argv| == 3 && TypeOf(argv[0]) == SET)
  }

  lemma PlainServes(argv: seq<bytes>, store: Store)
    requires argv != [] && !Splittable(TypeOf(argv[0]), argv)
    ensures ServeAny(Plain, FormatArgv(argv), store) == Plain(argv, store)
  {
    hide Decode, FormatArgv, TypeOf;
    DecodeFormat(argv);
  }

  lemma OneKeySlot(argv: seq<bytes>)
    requires Known(argv)
    ensures Want(argv) == Some(Wanted(P.Request(TypeOf(argv[0]), Slot(argv[1]), [], []), [FormatArgv(argv)]))
    ensures !Splittable(TypeOf(argv[0]), argv)
  {
    hide TypeOf, Slot, FormatArgv, KeyAt, RequestOf, CmdsOf;
    KeyBytes(argv, 1);
  }

  lemma PlainAlike(argv: seq<bytes>, s: int, a: Store, b: Store)
    requires SameSlot(a, b, s)
    requires Known(argv) ==> s == Slot(argv[1])
    ensures
      var (r, a') := Plain(argv, a);
      var (q, b') := Plain(argv, b);
      r == q && SameSlot(a', b', s) && Elsewhere(a', a, s)
  {
    hide TypeOf, Slot, Look;
    if |argv| == 2 && TypeOf(argv[0]) == GET {
      GetIsLook(a, argv[1]);
      GetIsLook(b, argv[1]);
    } else if |argv| == 3 && TypeOf(argv[0]) == SET {
      forall k ensures Look(a[argv[1] := argv[2]], k) == (if k == argv[1] then Some(argv[2]) else Look(a, k)) {
        LookUpdate(a, argv[1], argv[2], k);
      }
      forall k ensures Look(b[argv[1] := argv[2]], k) == (if k == argv[1] then Some(argv[2]) else Look(b, k)) {
        LookUpdate(b, argv[1], argv[2], k);
      }
    }
  }

  lemma LookUpdate(store: Store, key: bytes, value: bytes, k: bytes)
    ensures Look(store[key := value], k) == if k == key then Some(value) else Look(store, k)
  {}

  /** GET and SET keep to the slot they are sent to, and so does every command answered with an error. */
  lemma PlainIsLocal(argv: seq<bytes>)
    requires Want(argv).Some? && !Splittable(TypeOf(argv[0]), argv)
    ensures Local(Plain, FormatArgv(argv), Want(argv).value.request.slotNum)
  {
    hide Want, ServeAny, Plain, FormatArgv, TypeOf, Splittable, SameSlot, Elsewhere;
    WantSome(argv);
    var s := Want(argv).value.request.slotNum;
    if Known(argv) { OneKeySlot(argv); }
    forall a: Store, b: Store | SameSlot(a, b, s) ensures Alike(Plain, FormatArgv(argv), s, a, b) {
      PlainServes(argv, a);
      PlainServes(argv, b);
      PlainAlike(argv, s, a, b);
    }
  }

  // Two runs that go wrong -------------------------------------------

  const GET_NAME: bytes := [103, 101, 116]

  function MgetOf(k1: bytes, k2: bytes): Job {
    Ask([Name(MGET), k1, k2])
  }

  function GetOf(k: bytes): Job {
    Ask([GET_NAME, k])
  }

  /** The part of an MGET for one key. */
  function PartOf(k: bytes): bytes {
    FormatArgv([Name(MGET), k])
  }

  lemma GetOp(k: bytes)
    ensures OpOf(GetOf(k)) == [L.Probe(Slot(k), FormatArgv([GET_NAME, k]))]
  {
    hide Want, Slot, FormatArgv;
    assert TypeOf(GET_NAME) == GET;
    OneKeySlot([GET_NAME, k]);
  }

  lemma PartWritten(k: bytes)
    ensures Written(MGET, [Entry(k, [])]) == PartOf(k)
  {
    hide Written, FormatArgv;
    var es := [Entry(k, [])];
    assert es[..0] == [] && Args(MGET, []) == [];
    assert SubArgv(MGET, es) == [Name(MGET), k];
    assert Clean(2, es);
    WrittenExact(MGET, es);
  }

  lemma {:induction false} PairSlots(a: Entry, b: Entry, n: nat)
    requires Slot(a.key) < Slot(b.key)
    ensures UsedSlots([a, b], n)
         == (if Slot(a.key) < n then [Slot(a.key)] else []) + if Slot(b.key) < n then [Slot(b.key)] else []
    decreases n
  {
    hide Slot, InSlot;
    if n > 0 {
      PairSlots(a, b, n - 1);
      PairInSlot(a, b, n - 1);
    }
  }

  lemma PairInSlot(a: Entry, b: Entry, s: int)
    requires Slot(a.key) < Slot(b.key)
    ensures InSlot([a, b], s) == if s == Slot(a.key) then [a] else if s == Slot(b.key) then [b] else []
  {
    hide Slot;
    assert [a, b][..1] == [a] && [a][..0] == [];
    assert InSlot([], s) == [];
    assert InSlot([a], s) == if s == Slot(a.key) then [a] else [];
  }

  lemma MgetOp(k1: bytes, k2: bytes)
    requires Slot(k1) < Slot(k2)
    ensures OpOf(MgetOf(k1, k2)) == [L.Pair(Slot(k1), Slot(k2), PartOf(k1), PartOf(k2))]
  {
    hide Want, Slot, FormatArgv, UsedSlots, Written, Cmds, InSlot;
    var argv, a, b := [Name(MGET), k1, k2], Entry(k1, []), Entry(k2, []);
    NameType(MGET);
    assert Splittable(MGET, argv) && Entries(MGET, argv) == [a, b];
    WantSplittable(MGET, argv);
    PairSlots(a, b, SLOTS);
    var slots := UsedSlots([a, b], SLOTS);
    assert slots == [Slot(k1), Slot(k2)] && FragSeq([a, b]) == slots;
    forall j | 0 <= j < 2 ensures Cmds(MGET, [a, b], SLOTS)[j] == [PartOf(k1), PartOf(k2)][j] {
      CmdsAt(MGET, [a, b], SLOTS, j);
      PairInSlot(a, b, slots[j]);
      PartWritten(k1);
      PartWritten(k2);
    }
    assert Cmds(MGET, [a, b], SLOTS) == [PartOf(k1), PartOf(k2)];
  }

  lemma PartServed(k: bytes, store: Store)
    ensures ServeAny(Plain, PartOf(k), store) == (Array(1, [Get(store, k)]), store)
  {
    hide Serve, FormatArgv, TypeOf;
    var argv, es := [Name(MGET), k], [Entry(k, [])];
    NameType(MGET);
    assert Splittable(MGET, argv) && Entries(MGET, argv) == es;
    ServeFormat(MGET, argv, store);
    DecodeFormat(argv);
    assert Mget(store, es) == [Get(store, k)];
  }

  lemma GetServed(k: bytes, store: Store)
    ensures ServeAny(Plain, FormatArgv([GET_NAME, k]), store) == (Get(store, k), store)
  {
    hide FormatArgv, ServeAny, Slot, Want;
    assert TypeOf(GET_NAME) == GET;
    OneKeySlot([GET_NAME, k]);
    PlainServes([GET_NAME, k], store);
  }

  /** What a node says to a part of an MGET, and to a GET behind it. */
  lemma Answered(w: World, v: int, wire: seq<bytes>, k: bytes, k': bytes)
    requires w.other == Plain
    ensures
      var value := Get(NodeStore(w, v, wire), k');
      && AnswerOf(w, v, wire + [PartOf(k)]) == Array(1, [Get(NodeStore(w, v, wire), k)])
      && AnswerOf(w, v, wire + [PartOf(k), FormatArgv([GET_NAME, k'])]) == value
  {
    hide ServeAny, FormatArgv, NodeStore, AnswerOf;
    var get := FormatArgv([GET_NAME, k']);
    NodeStoreSnoc(w, v, wire, PartOf(k));
    PartServed(k, NodeStore(w, v, wire));
    NodeStoreSnoc(w, v, wire + [PartOf(k)], get);
    GetServed(k', NodeStore(w, v, wire));
    assert wire + [PartOf(k)] + [get] == wire + [PartOf(k), get];
  }

  /**
    The node of the second key is unknown: the MGET fails with its first part sent, and a GET of the
    first key is handed the array that answers that part.
    */
  lemma ArrayForValue(table: seq<int>, w: World, st: P.Client, k1: bytes, k2: bytes)
    requires O.Idle(table, st) && w.other == Plain && |table| == SLOTS
    requires Slot(k1) < Slot(k2) && table[Slot(k1)] != -1 && table[Slot(k2)] == -1
    ensures
      var ops := OpOf(MgetOf(k1, k2)) + OpOf(GetOf(k1)) + OpOf(Take);
      var value := Get(NodeStore(w, table[Slot(k1)], st.sent[table[Slot(k1)]]), k1);
      && P.WellCalls(ops)
      && P.Heard(table, Server(w), st, ops) == [Some(Array(1, [value]))]
      && O.Promises(st.sent, table, Server(w), ops) == [Some(value)]
  {
    hide Slot, OpOf, AnswerOf, NodeStore, P.Heard, O.Promises, FormatArgv, PartOf, GetOf, MgetOf;
    var s1, s2, get := Slot(k1), Slot(k2), FormatArgv([GET_NAME, k1]);
    var v := table[s1];
    MgetOp(k1, k2);
    GetOp(k1);
    TakeOp();
    L.OrphanAnswer(table, Server(w), st, s1, s2, PartOf(k1), PartOf(k2), get);
    var ops := OpOf(MgetOf(k1, k2)) + OpOf(GetOf(k1)) + OpOf(Take);
    assert ops == [L.Pair(s1, s2, PartOf(k1), PartOf(k2)), L.Probe(s1, get), P.Take({})];
    Answered(w, v, st.sent[v], k1, k1);
  }

  lemma TakeOp()
    ensures OpOf(Take) == [P.Take({})]
  {}

  /**
    The connection to the first node fails while the MGET is read: it leaves the queue with its second
    part unread, and a GET of the second key is handed the array that answers that part.
    */
  lemma ArrayAfterFailure(table: seq<int>, w: World, st: P.Client, k1: bytes, k2: bytes)
    requires O.Idle(table, st) && w.other == Plain && |table| == SLOTS && Slot(k1) < Slot(k2)
    requires table[Slot(k1)] != -1 && table[Slot(k2)] != -1 && table[Slot(k1)] != table[Slot(k2)]
    ensures
      var ops := OpOf(MgetOf(k1, k2)) + OpOf(GetOf(k2)) + [P.Take({0}), P.Take({})];
      var value := Get(NodeStore(w, table[Slot(k2)], st.sent[table[Slot(k2)]]), k2);
      && P.WellCalls(ops)
      && P.Heard(table, Server(w), st, ops) == [None, Some(Array(1, [value]))]
      && (var promises := O.Promises(st.sent, table, Server(w), ops); |promises| == 2 && promises[1] == Some(value))
  {
    hide Slot, OpOf, AnswerOf, NodeStore, P.Heard, O.Promises, FormatArgv, PartOf, GetOf, MgetOf;
    var s1, s2, get := Slot(k1), Slot(k2), FormatArgv([GET_NAME, k2]);
    var v := table[s2];
    MgetOp(k1, k2);
    GetOp(k2);
    L.MissedAnswer(table, Server(w), st, s1, s2, PartOf(k1), PartOf(k2), get);
    var ops := OpOf(MgetOf(k1, k2)) + OpOf(GetOf(k2)) + [P.Take({0}), P.Take({})];
    assert ops == [L.Pair(s1, s2, PartOf(k1), PartOf(k2)), L.Probe(s2, get), P.Take({0}), P.Take({})];
    Answered(w, v, st.sent[v], k2, k2);
  }
}
