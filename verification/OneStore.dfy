/**
  A pipelined cluster client over many nodes answers like one server with one store.

  Each node keeps the keys of its slots and serves the commands of its connection in order.
  MGET, DEL and MSET are split, sent over many connections, and their parts interleave with
  those of other commands; the replies are nevertheless those of serving the whole commands
  one after the other on a single store.  What the commands other than these three do is left
  open: it is any function of the store that keeps to the slot the client sends them to.
  */
module OneStore {
  import opened Bytes
  import opened Resp
  import opened Commands
  import opened Format
  import opened KeySlot
  import opened Store
  import opened Merge
  import opened FragmentMeaning
  import opened FragmentBytes
  import opened Fragment
  import opened ClusterCommand
  import opened ClientPlan
  import P = Pipeline
  import O = PipelineOrder
  import L = PipelineLoss

  // Locality ---------------------------------------------------------

  lemma HitsLocal(a: Store, b: Store, keys: set<bytes>)
    requires forall k | k in keys :: Look(a, k) == Look(b, k)
    ensures Hits(keys, a) == Hits(keys, b)
  {
    assert forall k | k in keys :: k in a <==> k in b;
    assert keys * a.Keys == keys * b.Keys;
  }

  lemma GetIsLook(store: Store, k: bytes)
    ensures Get(store, k) == match Look(store, k) case None => Nil case Some(v) => Str(v)
  {}

  lemma MgetLocal(a: Store, b: Store, es: seq<Entry>)
    requires forall i | 0 <= i < |es| :: Look(a, es[i].key) == Look(b, es[i].key)
    ensures Mget(a, es) == Mget(b, es)
  {
    hide Look, Get;
    forall i | 0 <= i < |es| ensures Get(a, es[i].key) == Get(b, es[i].key) {
      GetIsLook(a, es[i].key);
      GetIsLook(b, es[i].key);
    }
  }

  lemma LookMinus(store: Store, keys: set<bytes>, k: bytes)
    ensures Look(Minus(store, keys), k) == if k in keys then None else Look(store, k)
  {}

  lemma {:induction false} LastOnlyOfKeys(es: seq<Entry>, k: bytes)
    ensures Last(es, k).Some? <==> k in KeySet(es)
    decreases |es|
  {
    hide KeySet;
    if es == [] {
      assert KeySet([]) == {} by { NoKeys(map[]); }
    } else {
      LastOnlyOfKeys(es[..|es| - 1], k);
      KeySetSnoc(es);
    }
  }

  /** What a command says and does depends on its own keys, and it touches no others. */
  lemma ExecLocal(t: Cmd, a: Store, b: Store, es: seq<Entry>)
    requires Multi(t) && forall i | 0 <= i < |es| :: Look(a, es[i].key) == Look(b, es[i].key)
    ensures Exec(t, a, es).0 == Exec(t, b, es).0
    ensures forall k | k in KeySet(es) :: Look(Exec(t, a, es).1, k) == Look(Exec(t, b, es).1, k)
    ensures forall k | k !in KeySet(es) :: Look(Exec(t, a, es).1, k) == Look(a, k)
  {
    hide Look, Mget, Del, Mset, Minus, Hits;
    if t == MGET {
      MgetLocal(a, b, es);
    } else if t == DEL {
      DelMeaning(a, es);
      DelMeaning(b, es);
      HitsLocal(a, b, KeySet(es));
      forall k ensures Look(Minus(a, KeySet(es)), k) == (if k in KeySet(es) then None else Look(a, k))
                    && Look(Minus(b, KeySet(es)), k) == (if k in KeySet(es) then None else Look(b, k)) {
        LookMinus(a, KeySet(es), k);
        LookMinus(b, KeySet(es), k);
      }
    } else {
      forall k ensures Look(Mset(a, es), k) == (if k in KeySet(es) then Last(es, k) else Look(a, k))
                    && Look(Mset(b, es), k) == (if k in KeySet(es) then Last(es, k) else Look(b, k)) {
        MsetMeaning(a, es, k);
        MsetMeaning(b, es, k);
        LastOnlyOfKeys(es, k);
      }
    }
  }

  // Servers ----------------------------------------------------------

  /** What is said and done to the other commands. */
  type Other = (seq<bytes>, Store) -> (Reply, Store)

  function ServeAny(other: Other, request: bytes, store: Store): (Reply, Store) {
    match Decode(request)
    case None => Serve(request, store)
    case Some(argv) =>
      if argv == [] || Splittable(TypeOf(argv[0]), argv) then Serve(request, store) else other(argv, store)
  }

  ghost predicate SameSlot(a: Store, b: Store, s: int) {
    forall k | Slot(k) == s :: Look(a, k) == Look(b, k)
  }

  ghost predicate Elsewhere(a: Store, b: Store, s: int) {
    forall k | Slot(k) != s :: Look(a, k) == Look(b, k)
  }

  /** What is said and done to the request depends on the keys of slot s, and no others are touched. */
  ghost predicate Local(other: Other, request: bytes, s: int) {
    forall a: Store, b: Store | SameSlot(a, b, s) :: Alike(other, request, s, a, b)
  }

  ghost predicate Alike(other: Other, request: bytes, s: int, a: Store, b: Store) {
    var (r, a') := ServeAny(other, request, a);
    var (q, b') := ServeAny(other, request, b);
    r == q && SameSlot(a', b', s) && Elsewhere(a', a, s)
  }

  lemma ServeAnyMeans(other: Other, request: bytes, t: Cmd, es: seq<Entry>, store: Store)
    requires Multi(t) && Means(request, t, es)
    ensures ServeAny(other, request, store) == Exec(t, store, es)
  {
    hide Decode, Splittable, Entries, TypeOf;
    assert Serve(request, store) == Exec(t, store, es);
  }

  lemma MeansLocal(other: Other, request: bytes, t: Cmd, es: seq<Entry>, s: int)
    requires Multi(t) && Means(request, t, es) && forall i | 0 <= i < |es| :: Slot(es[i].key) == s
    ensures Local(other, request, s)
  {
    hide ServeAny, Exec, Means, Look, Slot;
    forall a: Store, b: Store | SameSlot(a, b, s) ensures Alike(other, request, s, a, b) {
      ServeAnyMeans(other, request, t, es, a);
      ServeAnyMeans(other, request, t, es, b);
      ExecLocal(t, a, b, es);
      ExecLocal(t, b, a, es);
      assert forall k | k in KeySet(es) :: Slot(k) == s;
    }
  }

  /** What the nodes start with, and how they serve the other commands. */
  datatype World = World(init: int -> Store, other: Other)

  /** The store of a node after the commands of its connection. */
  function NodeStore(w: World, v: int, cmds: seq<bytes>): Store
  {
    if cmds == [] then w.init(v) else ServeAny(w.other, cmds[|cmds| - 1], NodeStore(w, v, cmds[..|cmds| - 1])).1
  }

  /** What node v answers to the last of the commands of its connection. */
  function AnswerOf(w: World, v: int, cmds: seq<bytes>): Reply {
    if cmds == [] then Nil else ServeAny(w.other, cmds[|cmds| - 1], NodeStore(w, v, cmds[..|cmds| - 1])).0
  }

  function Server(w: World): P.Server {
    (v, cmds) => AnswerOf(w, v, cmds)
  }

  /** What the node in charge of key k has for it. */
  function Sees(table: seq<int>, w: World, sent: P.Wires, k: bytes): Option<bytes>
    requires |table| == SLOTS && table[Slot(k)] in sent
  {
    Look(NodeStore(w, table[Slot(k)], sent[table[Slot(k)]]), k)
  }

  /** The nodes together hold the one store g. */
  ghost predicate Agree(table: seq<int>, w: World, sent: P.Wires, g: Store) {
    |table| == SLOTS && forall k | table[Slot(k)] in sent :: Sees(table, w, sent, k) == Look(g, k)
  }

  lemma NodeStoreSnoc(w: World, v: int, cmds: seq<bytes>, cmd: bytes)
    ensures NodeStore(w, v, cmds + [cmd]) == ServeAny(w.other, cmd, NodeStore(w, v, cmds)).1
    ensures AnswerOf(w, v, cmds + [cmd]) == ServeAny(w.other, cmd, NodeStore(w, v, cmds)).0
  {
    hide ServeAny;
    assert (cmds + [cmd])[..|cmds|] == cmds;
  }

  /** Sending a command to the node of its slot is running it on the one store. */
  lemma PartIsLocal(table: seq<int>, w: World, sent: P.Wires, g: Store, s: int, cmd: bytes)
    requires Agree(table, w, sent, g) && Local(w.other, cmd, s) && 0 <= s < SLOTS && table[s] in sent
    ensures
      var v, (r, g') := table[s], ServeAny(w.other, cmd, g);
      Server(w)(v, sent[v] + [cmd]) == r && Agree(table, w, sent[v := sent[v] + [cmd]], g')
  {
    hide ServeAny, Slot, Look, Local, NodeStore, AnswerOf;
    var v := table[s];
    var a := NodeStore(w, v, sent[v]);
    assert SameSlot(a, g, s) && SameSlot(g, a, s) by {
      forall k | Slot(k) == s ensures Look(a, k) == Look(g, k) {
        assert Sees(table, w, sent, k) == Look(g, k);
      }
    }
    LocalAlike(w.other, cmd, s, a, g);
    LocalAlike(w.other, cmd, s, g, a);
    NodeStoreSnoc(w, v, sent[v], cmd);
    var sent', g' := sent[v := sent[v] + [cmd]], ServeAny(w.other, cmd, g).1;
    forall k | table[Slot(k)] in sent' ensures Sees(table, w, sent', k) == Look(g', k) {
      assert table[Slot(k)] in sent && Sees(table, w, sent, k) == Look(g, k);
    }
  }

  lemma LocalAlike(other: Other, cmd: bytes, s: int, a: Store, b: Store)
    requires Local(other, cmd, s) && SameSlot(a, b, s)
    ensures Alike(other, cmd, s, a, b)
  {
    hide Alike, SameSlot;
  }

  // One command ------------------------------------------------------

  lemma InSlotKeys(es: seq<Entry>, s: int)
    ensures forall i | 0 <= i < |InSlot(es, s)| :: Slot(InSlot(es, s)[i].key) == s
  {
    hide Slot, InSlot;
    KeySetInSlot(es, s);
    var fs := InSlot(es, s);
    forall i | 0 <= i < |fs| ensures Slot(fs[i].key) == s {
      assert fs[i].key in KeySet(fs);
    }
  }

  /** The nodes of these slots have connections. */
  ghost predicate Reached(table: seq<int>, sent: map<int, seq<bytes>>, slots: seq<int>) {
    |table| == SLOTS && forall i | 0 <= i < |slots| ::
      0 <= slots[i] < SLOTS && table[slots[i]] != -1 && table[slots[i]] in sent
  }

  /** The connections and the store after some parts. */
  ghost predicate Runs(table: seq<int>, w: World, sent: P.Wires, slots: seq<int>, cmds: seq<bytes>,
                       answers: seq<Answer>, g: Store)
    requires |slots| == |cmds|
  {
    var parts := P.Delivered(sent, table, Server(w), slots, cmds);
    var after := P.SentAfter(sent, table, slots, cmds);
    |parts| == |slots| && P.Answers(slots, parts) == answers && Agree(table, w, after, g) && after.Keys == sent.Keys
  }

  lemma RunsNone(table: seq<int>, w: World, sent: P.Wires, g: Store)
    requires Agree(table, w, sent, g)
    ensures Runs(table, w, sent, [], [], [], g)
  {
    hide Agree;
  }

  /** One part more. */
  lemma RunsMore(table: seq<int>, w: World, sent: P.Wires, slots: seq<int>, cmds: seq<bytes>, answers: seq<Answer>,
                 g: Store, s: int, cmd: bytes)
    requires |slots| == |cmds| && Runs(table, w, sent, slots, cmds, answers, g)
    requires Local(w.other, cmd, s) && Reached(table, sent, [s])
    ensures
      var (r, g') := ServeAny(w.other, cmd, g);
      Runs(table, w, sent, slots + [s], cmds + [cmd], answers + [Answer(s, Some(r))], g')
  {
    hide Agree, Local, ServeAny, AnswerOf;
    assert [s][0] == s;
    var before := P.SentAfter(sent, table, slots, cmds);
    var parts := P.Delivered(sent, table, Server(w), slots, cmds);
    assert (slots + [s])[..|slots|] == slots && (cmds + [cmd])[..|cmds|] == cmds;
    PartIsLocal(table, w, before, g, s, cmd);
    var v := table[s];
    var part := P.Sent(v, |before[v]|, Server(w)(v, before[v] + [cmd]));
    assert P.Delivered(sent, table, Server(w), slots + [s], cmds + [cmd]) == parts + [part];
    assert P.SentAfter(sent, table, slots + [s], cmds + [cmd]) == before[v := before[v] + [cmd]];
    AnswersSnoc(slots, parts, s, part);
  }

  lemma AnswersSnoc(slots: seq<int>, parts: seq<P.Sent>, s: int, part: P.Sent)
    requires |slots| == |parts|
    ensures P.Answers(slots + [s], parts + [part]) == P.Answers(slots, parts) + [Answer(s, Some(part.reply))]
  {}

  /** The parts of a command, sent to their nodes, are its slots run in order on the one store. */
  lemma {:induction false} SplitRuns(table: seq<int>, w: World, sent: P.Wires, g: Store, t: Cmd, es: seq<Entry>, n: nat)
    requires Agree(table, w, sent, g) && Multi(t) && Proper(t, es) && CleanSlots(t, es) && n <= SLOTS
    requires Reached(table, sent, UsedSlots(es, n))
    ensures Runs(table, w, sent, UsedSlots(es, n), Cmds(t, es, n), RunSlots(t, g, es, n).0, RunSlots(t, g, es, n).1)
    decreases n
  {
    hide Agree, InSlot, Exec, Runs, Means, Written, Clean, Slot, SubArgv, ServeAny, Local;
    if n == 0 {
      RunsNone(table, w, sent, g);
    } else {
      ReachedPrefix(table, sent, es, n);
      SplitRuns(table, w, sent, g, t, es, n - 1);
      var fs := InSlot(es, n - 1);
      if fs == [] {
        assert UsedSlots(es, n) == UsedSlots(es, n - 1) && Cmds(t, es, n) == Cmds(t, es, n - 1);
      } else {
        ProperInSlot(t, es, n - 1);
        WrittenMeans(t, fs);
        InSlotKeys(es, n - 1);
        var (cs, st) := RunSlots(t, g, es, n - 1);
        MeansLocal(w.other, Written(t, fs), t, fs, n - 1);
        ServeAnyMeans(w.other, Written(t, fs), t, fs, st);
        RunsMore(table, w, sent, UsedSlots(es, n - 1), Cmds(t, es, n - 1), cs, st, n - 1, Written(t, fs));
      }
    }
  }

  lemma ReachedPrefix(table: seq<int>, sent: map<int, seq<bytes>>, es: seq<Entry>, n: nat)
    requires n > 0 && Reached(table, sent, UsedSlots(es, n))
    ensures Reached(table, sent, UsedSlots(es, n - 1))
    ensures InSlot(es, n - 1) != [] ==> Reached(table, sent, [n - 1])
  {
    hide InSlot;
    var slots, before := UsedSlots(es, n), UsedSlots(es, n - 1);
    forall i | 0 <= i < |before| ensures 0 <= before[i] < SLOTS && table[before[i]] != -1 && table[before[i]] in sent {
      assert slots[i] == before[i];
    }
    if InSlot(es, n - 1) != [] { assert slots[|before|] == n - 1; }
  }

  /** A request gets the reply and leaves the store that serving the command on the one store would. */
  ghost predicate Obeyed(table: seq<int>, w: World, sent: P.Wires, g: Store, argv: seq<bytes>, want: Wanted) {
    var slots, cmds, (r, g') := P.SlotsOf(want.request), want.cmds, ServeAny(w.other, FormatArgv(argv), g);
    && |cmds| == |slots|
    && var parts := P.Delivered(sent, table, Server(w), slots, cmds);
    && |parts| == |slots| && P.Due(want.request, parts) == Some(r)
    && Agree(table, w, P.SentAfter(sent, table, slots, cmds), g')
    && P.SentAfter(sent, table, slots, cmds).Keys == sent.Keys
  }

  /** A command that goes out whole to one slot. */
  lemma WholeRuns(table: seq<int>, w: World, sent: P.Wires, g: Store, argv: seq<bytes>, t: Cmd, s: nat)
    requires Agree(table, w, sent, g) && Local(w.other, FormatArgv(argv), s) && Reached(table, sent, [s])
    ensures Obeyed(table, w, sent, g, argv, Wanted(P.Request(t, s, [], []), [FormatArgv(argv)]))
  {
    hide Agree, FormatArgv, ServeAny, Local, P.Delivered, P.SentAfter;
    RunsNone(table, w, sent, g);
    RunsMore(table, w, sent, [], [], [], g, s, FormatArgv(argv));
    assert [] + [s] == [s] && [] + [FormatArgv(argv)] == [FormatArgv(argv)];
    FirstAnswer([s], P.Delivered(sent, table, Server(w), [s], [FormatArgv(argv)]));
  }

  /** An MGET, DEL or MSET, split or whole. */
  lemma CommandRuns(table: seq<int>, w: World, sent: P.Wires, g: Store, t: Cmd, argv: seq<bytes>)
    requires Agree(table, w, sent, g) && Splittable(t, argv)
    requires Neat(t, Entries(t, argv))
    requires Reached(table, sent, UsedSlots(Entries(t, argv), SLOTS))
    ensures Obeyed(table, w, sent, g, argv, Wanted(RequestOf(t, Entries(t, argv)), CmdsOf(t, argv)))
  {
    hide Agree, Serve, ServeAny, FormatArgv, Exec, UsedSlots, Slot, MergeReplies, FragSeq, RunSlots, CleanSlots, Means,
      Entries, P.Delivered, P.SentAfter, TypeOf, Local;
    var es := Entries(t, argv);
    RequestWellformed(t, argv);
    WholeMeans(t, argv);
    ServeAnyMeans(w.other, FormatArgv(argv), t, es, g);
    var slots := UsedSlots(es, SLOTS);
    if |slots| == 1 {
      forall i | 0 <= i < |es| ensures Slot(es[i].key) == slots[0] {
        KeySlotUsed(es, i);
      }
      MeansLocal(w.other, FormatArgv(argv), t, es, slots[0]);
      assert slots == [slots[0]];
      WholeRuns(table, w, sent, g, argv, t, slots[0]);
    } else {
      ProperEntries(t, argv);
      SplitRuns(table, w, sent, g, t, es, SLOTS);
      FragmentationPreservesMeaning(t, g, es);
    }
  }

  /** An MGET, DEL or MSET is sent as it is meant; another command keeps to its slot. */
  ghost predicate Fit(w: World, argv: seq<bytes>)
    requires Want(argv).Some?
  {
    var t := TypeOf(argv[0]);
    if Splittable(t, argv) then Neat(t, Entries(t, argv))
    else Local(w.other, FormatArgv(argv), Want(argv).value.request.slotNum)
  }

  /** Every command the client does not refuse, once its slots have nodes. */
  lemma WantedRuns(table: seq<int>, w: World, sent: P.Wires, g: Store, argv: seq<bytes>)
    requires Agree(table, w, sent, g) && Want(argv).Some? && Fit(w, argv)
    requires Reached(table, sent, P.SlotsOf(Want(argv).value.request))
    ensures Obeyed(table, w, sent, g, argv, Want(argv).value)
  {
    hide Agree, Obeyed, Want, Splittable, RequestOf, CmdsOf, TypeOf, UsedSlots, Neat, Local, FormatArgv, Entries;
    WantSome(argv);
    var t := TypeOf(argv[0]);
    if Splittable(t, argv) {
      SplittableMulti(t, argv);
      WantSplittable(t, argv);
      RequestWellformed(t, argv);
      CommandRuns(table, w, sent, g, t, argv);
    } else {
      WantWhole(argv);
      WholeRuns(table, w, sent, g, argv, t, Want(argv).value.request.slotNum);
    }
  }

  lemma FirstAnswer(slots: seq<int>, parts: seq<P.Sent>)
    requires |slots| == |parts| == 1
    ensures P.Answers(slots, parts)[0].reply == Some(parts[0].reply)
  {}

  // A whole run ------------------------------------------------------

  /** A client appends commands and takes replies. */
  datatype Job = Ask(argv: seq<bytes>) | Take

  /** Every slot of the command has a node. */
  predicate Ready(table: seq<int>, argv: seq<bytes>) {
    && |table| == SLOTS && Want(argv).Some?
    && forall i | 0 <= i < |P.SlotsOf(Want(argv).value.request)| ::
         P.NodeOf(table, P.SlotsOf(Want(argv).value.request)[i]) != -1
  }

  /** Nothing of it is sent: it is refused, or its first slot has no node. */
  predicate Barred(table: seq<int>, argv: seq<bytes>) {
    Want(argv).Some? ==>
      var slots := P.SlotsOf(Want(argv).value.request);
      |slots| > 0 && P.NodeOf(table, slots[0]) == -1
  }

  ghost predicate Fine(table: seq<int>, w: World, job: Job) {
    job.Ask? ==>
      && |FormatArgv(job.argv)| < MAX_INT
      && (Barred(table, job.argv) || (Ready(table, job.argv) && Fit(w, job.argv)))
  }

  /** The call of the pipeline, if the command is not refused. */
  function OpOf(job: Job): seq<P.Call> {
    if job.Take? then [P.Take({})]
    else match Want(job.argv)
      case None => []
      case Some(want) => [P.Do(want.request, want.cmds, {})]
  }

  function Ops(jobs: seq<Job>): seq<P.Call>
  {
    if jobs == [] then [] else Ops(jobs[..|jobs| - 1]) + OpOf(jobs[|jobs| - 1])
  }

  /** One server, one store: the commands that are sent, one after the other. */
  function Serial(table: seq<int>, other: Other, g: Store, jobs: seq<Job>): (seq<Option<Reply>>, Store)
  {
    if jobs == [] then ([], g)
    else
      var (replies, st) := Serial(table, other, g, jobs[..|jobs| - 1]);
      var job := jobs[|jobs| - 1];
      if job.Take? || !Ready(table, job.argv) then (replies, st)
      else
        var (r, st') := ServeAny(other, FormatArgv(job.argv), st);
        (replies + [Some(r)], st')
  }

  lemma OpWell(job: Job)
    ensures P.WellCalls(OpOf(job))
  {
    hide Want, P.Wellformed;
    if job.Ask? && Want(job.argv).Some? { WantWellformed(job.argv); }
  }

  lemma {:induction false} OpsWell(jobs: seq<Job>)
    ensures P.WellCalls(Ops(jobs))
    decreases |jobs|
  {
    hide OpOf, P.WellCall;
    if jobs != [] {
      OpsWell(jobs[..|jobs| - 1]);
      OpWell(jobs[|jobs| - 1]);
    }
  }

  lemma OpCalm(table: seq<int>, w: World, job: Job)
    requires |table| == SLOTS && Fine(table, w, job)
    ensures L.AllCalm(table, OpOf(job))
  {
    hide Want, Fit;
    OpWell(job);
    if job.Ask? && Want(job.argv).Some? {
      WantWellformed(job.argv);
      var slots := P.SlotsOf(Want(job.argv).value.request);
      if Ready(table, job.argv) {
        P.ReachIs(table, slots, {}, |slots|);
      }
    }
  }

  lemma {:induction false} OpsCalm(table: seq<int>, w: World, jobs: seq<Job>)
    requires |table| == SLOTS && forall i | 0 <= i < |jobs| :: Fine(table, w, jobs[i])
    ensures L.AllCalm(table, Ops(jobs))
    decreases |jobs|
  {
    hide OpOf, Fine, L.Calm;
    if jobs != [] {
      OpsCalm(table, w, jobs[..|jobs| - 1]);
      OpCalm(table, w, jobs[|jobs| - 1]);
    }
  }

  /** What a call adds to the promises and to the wires. */
  ghost predicate Adds(table: seq<int>, w: World, sent: P.Wires, op: P.Call, promised: seq<Option<Reply>>, g: Store)
    requires |table| == SLOTS && P.WellCall(op) && op.Do?
  {
    var k := P.Reach(table, P.SlotsOf(op.request), op.fails, 0);
    var after := P.SentAfter(sent, table, P.SlotsOf(op.request)[..k], op.cmds[..k]);
    O.Promised(sent, table, Server(w), op) == promised && Agree(table, w, after, g) && after.Keys == sent.Keys
  }

  lemma ReadyAdds(table: seq<int>, w: World, sent: P.Wires, g: Store, argv: seq<bytes>, op: P.Call)
    requires Agree(table, w, sent, g) && P.Routed(table, sent) && Ready(table, argv) && Fit(w, argv)
    requires [op] == OpOf(Ask(argv)) && P.WellCall(op)
    ensures var (r, g') := ServeAny(w.other, FormatArgv(argv), g); Adds(table, w, sent, op, [Some(r)], g')
  {
    hide Agree, ServeAny, FormatArgv, Want, Fit, Server, Obeyed, P.SentAfter, O.Promised, P.Wellformed;
    WantWellformed(argv);
    var slots := P.SlotsOf(op.request);
    WellformedSlots(op.request);
    P.ReachIs(table, slots, {}, |slots|);
    assert slots[..|slots|] == slots && op.cmds[..|slots|] == op.cmds;
    ReadyReached(table, sent, slots);
    WantedRuns(table, w, sent, g, argv);
    ObeyedPromise(table, w, sent, g, argv, op);
  }

  lemma WellformedSlots(r: P.Request)
    requires P.Wellformed(r)
    ensures P.Slotted(P.SlotsOf(r))
  {}

  lemma BarredAdds(table: seq<int>, w: World, sent: P.Wires, g: Store, argv: seq<bytes>, op: P.Call)
    requires Agree(table, w, sent, g) && Barred(table, argv) && [op] == OpOf(Ask(argv)) && P.WellCall(op)
    ensures |table| == SLOTS && Adds(table, w, sent, op, [], g) && !Ready(table, argv)
  {
    hide Want, Server, P.SentAfter, Sees, P.Wellformed;
    WantWellformed(argv);
    var slots := P.SlotsOf(op.request);
    WellformedSlots(op.request);
    P.ReachIs(table, slots, {}, 0);
    P.SentNone(sent, table, Server(w), slots, op.cmds);
  }

  /** One job more. */
  lemma JobIsServed(table: seq<int>, w: World, sent: P.Wires, g: Store, job: Job)
    requires Agree(table, w, sent, g) && P.Routed(table, sent) && Fine(table, w, job)
    ensures P.WellCalls(OpOf(job)) && |table| == SLOTS
    ensures
      var served := job.Ask? && Ready(table, job.argv);
      var (r, g') := if served then ServeAny(w.other, FormatArgv(job.argv), g) else (Nil, g);
      && O.Promises(sent, table, Server(w), OpOf(job)) == (if served then [Some(r)] else [])
      && Agree(table, w, O.Carried(sent, table, OpOf(job)), g') && O.Carried(sent, table, OpOf(job)).Keys == sent.Keys
  {
    hide Agree, ServeAny, FormatArgv, Want, Fit, O.Promises, O.Carried, Server, P.Reach, Barred, P.WellCall, O.Promised,
      P.SentAfter;
    OpWell(job);
    O.PromisesNone(sent, table, Server(w), OpOf(job));
    if OpOf(job) == [] {
      assert OpOf(job)[..0] == OpOf(job);
    } else {
      var op := OpOf(job)[0];
      assert OpOf(job)[..1] == OpOf(job) == [op] && OpOf(job)[..0] == [];
      O.PromisesSnoc(sent, table, Server(w), OpOf(job), 0);
      if op.Do? {
        if Barred(table, job.argv) {
          BarredAdds(table, w, sent, g, job.argv, op);
        } else {
          ReadyAdds(table, w, sent, g, job.argv, op);
        }
      } else {
        TakePromise(sent, table, Server(w), op);
      }
    }
  }

  lemma TakePromise(sent: P.Wires, table: seq<int>, server: P.Server, op: P.Call)
    requires |table| == SLOTS && op.Take?
    ensures P.WellCall(op) && O.Promised(sent, table, server, op) == []
  {}

  lemma ReadyReached(table: seq<int>, sent: P.Wires, slots: seq<int>)
    requires P.Routed(table, sent) && P.Slotted(slots) && forall i | 0 <= i < |slots| :: P.NodeOf(table, slots[i]) != -1
    ensures Reached(table, sent, slots)
  {}

  lemma ObeyedPromise(table: seq<int>, w: World, sent: P.Wires, g: Store, argv: seq<bytes>, op: P.Call)
    requires |table| == SLOTS && op.Do? && P.WellCall(op) && O.Whole(table, op.request, op.fails)
    requires Obeyed(table, w, sent, g, argv, Wanted(op.request, op.cmds))
    ensures
      var (r, g') := ServeAny(w.other, FormatArgv(argv), g);
      && O.Promised(sent, table, Server(w), op) == [Some(r)]
      && Agree(table, w, P.SentAfter(sent, table, P.SlotsOf(op.request), op.cmds), g')
      && P.SentAfter(sent, table, P.SlotsOf(op.request), op.cmds).Keys == sent.Keys
  {
    hide Agree, ServeAny, FormatArgv, P.Delivered, P.SentAfter, P.Due, P.SlotsOf, P.Reach;
  }

  /**
    The replies a pipelined cluster promises for any sequence of commands are the replies of
    one server that serves the whole commands, in the order of appending, on one store; and
    the nodes together end with that store.
    */
  lemma {:induction false} ClusterIsOneStore(table: seq<int>, w: World, sent: P.Wires, g: Store, jobs: seq<Job>)
    requires Agree(table, w, sent, g) && P.Routed(table, sent)
    requires forall i | 0 <= i < |jobs| :: Fine(table, w, jobs[i])
    ensures |table| == SLOTS && P.WellCalls(Ops(jobs)) && L.AllCalm(table, Ops(jobs))
    ensures
      var (replies, g') := Serial(table, w.other, g, jobs);
      && O.Promises(sent, table, Server(w), Ops(jobs)) == replies
      && Agree(table, w, O.Carried(sent, table, Ops(jobs)), g') && O.Carried(sent, table, Ops(jobs)).Keys == sent.Keys
    decreases |jobs|
  {
    hide Agree, ServeAny, FormatArgv, OpOf, Fine, O.Promises, O.Carried, L.AllCalm, P.WellCall, Server, Ready;
    OpsWell(jobs);
    OpsCalm(table, w, jobs);
    O.PromisesNone(sent, table, Server(w), Ops(jobs));
    if jobs == [] {
      assert Ops(jobs)[..0] == Ops(jobs);
    } else {
      var n := |jobs| - 1;
      var ops := Ops(jobs[..n]);
      ClusterIsOneStore(table, w, sent, g, jobs[..n]);
      JobIsServed(table, w, O.Carried(sent, table, ops), Serial(table, w.other, g, jobs[..n]).1, jobs[n]);
      L.PromisesJoin(sent, table, Server(w), ops, OpOf(jobs[n]));
      var replies := O.Promises(sent, table, Server(w), ops);
      assert replies + [] == replies;
    }
  }

  // The client -------------------------------------------------------

  /** One call of the client, from its arguments. */
  method Act(cc: P.Context, job: Job) returns (replies: seq<Option<Reply>>)
    requires cc.Valid() && (job.Ask? ==> |FormatArgv(job.argv)| < MAX_INT)
    modifies cc
    ensures cc.Valid() && |cc.table| == SLOTS && P.WellCalls(OpOf(job))
    ensures cc.Now() == P.Play(cc.table, old(cc.Now()), OpOf(job))
    ensures replies == P.Heard(cc.table, cc.server, old(cc.Now()), OpOf(job))
  {
    hide FormatArgv, Want, P.Play, P.Heard, P.Coherent;
    OpWell(job);
    var ops: seq<P.Call> := [P.Take({})];
    if job.Ask? {
      var want := Prepare(job.argv);
      ops := if want.None? then [] else [P.Do(want.value.request, want.value.cmds, {})];
    }
    replies := P.Drive(cc, ops);
  }

  /**
    The pipeline, driven by any such client from the arguments of its commands, hands out the replies
    of the one server in order; the others are owed to the commands still queued, and the nodes
    together hold its store.
    */
  method Session(cc: P.Context, jobs: seq<Job>, ghost w: World, ghost g: Store) returns (replies: seq<Option<Reply>>)
    requires cc.Valid() && O.Idle(cc.table, cc.Now()) && cc.server == Server(w) && Agree(cc.table, w, cc.sent, g)
    requires forall i | 0 <= i < |jobs| :: Fine(cc.table, w, jobs[i])
    modifies cc
    ensures cc.Valid()
    ensures
      var (answers, g') := Serial(cc.table, w.other, g, jobs);
      replies <= answers && |replies| + |cc.requests| == |answers| && Agree(cc.table, w, cc.sent, g')
  {
    hide Fine, O.Promises, O.Carried, Serial, OpOf, P.WellCall, P.Play, P.Heard, Agree, O.Idle, O.InStep, P.Coherent,
      Server, O.CleanAt;
    ghost var st := cc.Now();
    IdleRouted(cc.table, st);
    replies := [];
    P.PlayNone(cc.table, cc.server, st, []);
    for i := 0 to |jobs|
      invariant cc.Valid() && P.WellCalls(Ops(jobs[..i])) && cc.Now() == P.Play(cc.table, st, Ops(jobs[..i]))
      invariant replies == P.Heard(cc.table, cc.server, st, Ops(jobs[..i]))
    {
      FineSize(cc.table, w, jobs[i]);
      assert jobs[..i + 1][..i] == jobs[..i];
      var more := Act(cc, jobs[i]);
      L.PlayJoin(cc.table, cc.server, st, Ops(jobs[..i]), OpOf(jobs[i]));
      replies := replies + more;
    }
    assert jobs[..|jobs|] == jobs;
    ClusterIsOneStore(cc.table, w, st.sent, g, jobs);
    CalmRun(cc.table, cc.server, st, Ops(jobs));
  }

  lemma FineSize(table: seq<int>, w: World, job: Job)
    requires Fine(table, w, job)
    ensures job.Ask? ==> |FormatArgv(job.argv)| < MAX_INT
  {
    hide FormatArgv, Ready, Barred, Fit;
  }

  lemma IdleRouted(table: seq<int>, st: P.Client)
    requires O.Idle(table, st)
    ensures |table| == SLOTS && P.Routed(table, st.sent) && st.requests == []
  {}

  /** Without failures the replies are those promised, in order. */
  lemma CalmRun(table: seq<int>, server: P.Server, st: P.Client, ops: seq<P.Call>)
    requires O.Idle(table, st) && L.AllCalm(table, ops) && P.WellCalls(ops)
    ensures
      var heard, promises := P.Heard(table, server, st, ops), O.Promises(st.sent, table, server, ops);
      heard <= promises && |heard| + |P.Play(table, st, ops).requests| == |promises|
    ensures P.Play(table, st, ops).sent == O.Carried(st.sent, table, ops)
  {
    hide O.Idle, O.InStep, P.Play, P.Heard, O.Promises, O.Carried, O.CleanAt, P.WellCall, L.AllCalm;
    IdleRouted(table, st);
    L.CleanThenCalm(table, st, [], ops);
    assert [] + ops == ops;
    var parts, due := O.OrderKept(table, server, st, ops);
    CalmUp(table, ops);
    L.ReplyCount(table, server, st, ops);
  }

  lemma CalmUp(table: seq<int>, ops: seq<P.Call>)
    requires L.AllCalm(table, ops)
    ensures O.AllUp(ops)
  {
    hide O.Whole, P.WellCall;
  }

  /** The nodes start with the one store cut up by slot. */
  ghost predicate Shared(table: seq<int>, nodes: set<int>, w: World, g: Store) {
    |table| == SLOTS && forall k | table[Slot(k)] in nodes :: Look(w.init(table[Slot(k)]), k) == Look(g, k)
  }

  function Unsent(nodes: set<int>): P.Wires {
    map v | v in nodes :: []
  }

  lemma FreshAgrees(table: seq<int>, nodes: set<int>, w: World, g: Store)
    requires Shared(table, nodes, w, g)
    ensures Agree(table, w, Unsent(nodes), g)
  {
    hide Look, Slot;
  }

  /** A client that connects, then appends and takes in any order. */
  method Connect(table: seq<int>, nodes: set<int>, jobs: seq<Job>, w: World, ghost g: Store)
    returns (cc: P.Context, replies: seq<Option<Reply>>)
    requires |table| == SLOTS && forall s | 0 <= s < SLOTS :: table[s] == -1 || table[s] in nodes
    requires Shared(table, nodes, w, g) && forall i | 0 <= i < |jobs| :: Fine(table, w, jobs[i])
    ensures fresh(cc) && cc.Valid() && cc.table == table
    ensures
      var (answers, g') := Serial(table, w.other, g, jobs);
      replies <= answers && |replies| + |cc.requests| == |answers| && Agree(table, w, cc.sent, g')
  {
    hide Fine, Shared, Agree, Serial, P.Coherent;
    FreshAgrees(table, nodes, w, g);
    cc := new P.Context(table, nodes, Server(w));
    assert cc.sent == Unsent(nodes);
    replies := Session(cc, jobs, w, g);
  }
}
