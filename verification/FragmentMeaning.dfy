/**
  Splitting a command by slot, running the parts in slot order and merging their replies
  means the same as running the command: the same reply and the same final store.
  */
module FragmentMeaning {
  import opened Resp
  import opened Commands
  import opened KeySlot
  import opened Store
  import opened Merge

  /** The slots of the entries: the sub-command each key went to. */
  function FragSeq(es: seq<Entry>): seq<int> {
    seq(|es|, i requires 0 <= i < |es| => Slot(es[i].key))
  }

  /** The sub-commands of the slots below n, run one after the other. */
  function RunSlots(t: Cmd, store: Store, es: seq<Entry>, n: nat): (seq<Answer>, Store)
    requires Multi(t)
    decreases n
  {
    if n == 0 then ([], store)
    else
      var (cs, st) := RunSlots(t, store, es, n - 1);
      var fs := InSlot(es, n - 1);
      if fs == [] then (cs, st)
      else
        var (r, st') := Exec(t, st, fs);
        (cs + [Answer(n - 1, Some(r))], st')
  }

  lemma FirstProblemSnoc(t: Cmd, cs: seq<Answer>, c: Answer)
    requires FirstProblem(t, cs).Pass? && c.reply.Some? && !c.reply.value.Error? && Fits(t, c.reply.value)
    ensures FirstProblem(t, cs + [c]).Pass?
  {
    if cs == [] {
      assert (cs + [c])[1..] == [];
    } else {
      assert (cs + [c])[1..] == cs[1..] + [c];
      FirstProblemSnoc(t, cs[1..], c);
    }
  }

  /** A store that serves every command gives the merge nothing to object to. */
  lemma {:induction false} RunSlotsPass(t: Cmd, store: Store, es: seq<Entry>, n: nat)
    requires Multi(t)
    ensures FirstProblem(t, RunSlots(t, store, es, n).0).Pass?
    decreases n
  {
    hide InSlot, Mget, Del, Mset, FirstProblem;
    if n == 0 {
      assert FirstProblem(t, []).Pass? by { NothingToObject(t); }
    } else {
      RunSlotsPass(t, store, es, n - 1);
      var (cs, st) := RunSlots(t, store, es, n - 1);
      var fs := InSlot(es, n - 1);
      if fs != [] {
        FirstProblemSnoc(t, cs, Answer(n - 1, Some(Exec(t, st, fs).0)));
      }
    }
  }

  lemma NothingToObject(t: Cmd)
    ensures FirstProblem(t, []).Pass?
  {
  }

  // DEL --------------------------------------------------------------

  lemma {:induction false} DelAnswers(store: Store, es: seq<Entry>, n: nat)
    ensures var (cs, st) := RunSlots(DEL, store, es, n);
      (Total(cs), st) == DelSlots(store, es, n)
    decreases n
  {
    hide InSlot, Del, Total;
    if n == 0 {
      TotalNothing();
    } else {
      DelAnswers(store, es, n - 1);
      var (cs, st) := RunSlots(DEL, store, es, n - 1);
      var fs := InSlot(es, n - 1);
      if fs == [] {
        DelNothing(st);
      } else {
        TotalSnoc(cs, n - 1, Del(st, fs).0);
      }
    }
  }

  lemma TotalNothing()
    ensures Total([]) == 0
  {
  }

  lemma DelNothing(store: Store)
    ensures Del(store, []) == (0, store)
  {
  }

  lemma TotalSnoc(cs: seq<Answer>, s: int, k: int)
    ensures Total(cs + [Answer(s, Some(Integer(k)))]) == Total(cs) + k
  {
    assert (cs + [Answer(s, Some(Integer(k)))])[..|cs|] == cs;
  }

  // MSET -------------------------------------------------------------

  lemma {:induction false} MsetAnswers(store: Store, es: seq<Entry>, n: nat)
    ensures RunSlots(MSET, store, es, n).1 == MsetSlots(store, es, n)
    decreases n
  {
    hide InSlot;
    if n > 0 { MsetAnswers(store, es, n - 1); }
  }

  // MGET -------------------------------------------------------------

  lemma {:induction false} MgetAnswers(store: Store, es: seq<Entry>, n: nat, s: int)
    requires 0 <= s
    ensures var (cs, st) := RunSlots(MGET, store, es, n);
      && st == store
      && Elements(cs, s) == (if s < n then Mget(store, InSlot(es, s)) else [])
      && (s in Slots(cs) <==> s < n && InSlot(es, s) != [])
    decreases n
  {
    hide InSlot, Slots;
    if n == 0 {
      NoSlots();
    } else {
      MgetAnswers(store, es, n - 1, s);
      var (cs, st) := RunSlots(MGET, store, es, n - 1);
      var fs := InSlot(es, n - 1);
      if fs != [] {
        var c := Answer(n - 1, Some(Array(|fs|, Mget(store, fs))));
        assert (cs + [c])[..|cs|] == cs;
        SlotsSnoc(cs, c);
      }
    }
  }

  lemma NoSlots()
    ensures Slots([]) == {}
  {
  }

  lemma SlotsSnoc(cs: seq<Answer>, c: Answer)
    ensures Slots(cs + [c]) == Slots(cs) + {c.slot}
  {
    assert (cs + [c])[|cs|] == c;
    assert forall i | 0 <= i < |cs| :: (cs + [c])[i] == cs[i];
  }

  /** Before the keys es[..i] are served, each sub-reply has as many elements left as they need. */
  ghost predicate Ready(cs: seq<Answer>, es: seq<Entry>, i: nat, left: map<int, int>)
    requires i <= |es|
  {
    forall s :: s in left ==> left[s] == Count(es[..i], s)
  }

  lemma CountNext(es: seq<Entry>, i: nat, s: int)
    requires i < |es|
    ensures Count(es[..i + 1], s) == Count(es[..i], s) + if Slot(es[i].key) == s then 1 else 0
  {
    hide Slot;
    assert es[..i + 1][..i] == es[..i];
  }

  /** What each key ought to get. */
  ghost predicate Serves(cs: seq<Answer>, store: Store, es: seq<Entry>) {
    forall s :: s in Slots(cs) ==> Elements(cs, s) == Mget(store, InSlot(es, s))
  }

  ghost predicate Covers(left: map<int, int>, es: seq<Entry>) {
    forall j | 0 <= j < |es| :: Slot(es[j].key) in left
  }

  /** The element a key takes is its own value. */
  lemma OwnElement(cs: seq<Answer>, store: Store, es: seq<Entry>, i: nat)
    requires i < |es| && Serves(cs, store, es) && Slot(es[i].key) in Slots(cs)
    ensures var s := Slot(es[i].key);
      var r := Count(es[..i], s);
      r < |Elements(cs, s)| && Elements(cs, s)[r] == Get(store, es[i].key)
  {
    hide Slot, InSlot, Slots, Elements;
    RankInSlot(es, i);
  }

  lemma {:induction false} TakeServes(cs: seq<Answer>, store: Store, es: seq<Entry>, i: nat, left: map<int, int>)
    requires i <= |es| && Serves(cs, store, es) && left.Keys == Slots(cs) && Covers(left, es)
    requires Ready(cs, es, i, left)
    ensures TakeAll(cs, FragSeq(es)[..i], left) == Some(Mget(store, es)[..i])
    ensures forall s :: s in Leftover(FragSeq(es)[..i], left) ==> Leftover(FragSeq(es)[..i], left)[s] == 0
    decreases i
  {
    hide Slot, InSlot, Slots, Elements, Serves, TakeAll, Leftover;
    if i == 0 {
      assert es[..0] == [];
      NoneInSlot();
      TakeNone(cs, left);
    } else {
      var frag := FragSeq(es)[..i];
      assert frag[..i - 1] == FragSeq(es)[..i - 1];
      var s := Slot(es[i - 1].key);
      OwnElement(cs, store, es, i - 1);
      var left' := left[s := left[s] - 1];
      forall u | u in left ensures left'[u] == Count(es[..i - 1], u) {
        CountNext(es, i - 1, u);
      }
      TakeServes(cs, store, es, i - 1, left');
      TakeOne(cs, frag, left);
      assert Mget(store, es)[..i] == Mget(store, es)[..i - 1] + [Get(store, es[i - 1].key)];
    }
  }

  lemma TakeNone(cs: seq<Answer>, left: map<int, int>)
    ensures TakeAll(cs, [], left) == Some([]) && Leftover([], left) == left
  {}

  lemma TakeOne(cs: seq<Answer>, frag: seq<int>, left: map<int, int>)
    requires frag != [] && frag[|frag| - 1] in left
    requires 0 < left[frag[|frag| - 1]] <= |Elements(cs, frag[|frag| - 1])|
    ensures
      var n, s := |frag| - 1, frag[|frag| - 1];
      var rest := left[s := left[s] - 1];
      && Leftover(frag, left) == Leftover(frag[..n], rest)
      && (TakeAll(cs, frag[..n], rest).Some? ==>
            TakeAll(cs, frag, left) == Some(TakeAll(cs, frag[..n], rest).value + [Elements(cs, s)[left[s] - 1]]))
  {
    hide Elements;
  }

  lemma NoneInSlot()
    ensures forall s :: InSlot([], s) == []
  {
  }

  lemma HasSlot(es: seq<Entry>, i: nat)
    requires i < |es|
    ensures InSlot(es, Slot(es[i].key)) != []
  {
    hide Slot;
    RankInSlot(es, i);
  }

  /** MGET: every key gets its value, and every element of every sub-reply is used exactly once. */
  lemma MgetMerges(store: Store, es: seq<Entry>)
    ensures var cs := RunSlots(MGET, store, es, SLOTS).0;
      && TakeAll(cs, FragSeq(es), Counts(cs)) == Some(Mget(store, es))
      && (forall s :: s in Leftover(FragSeq(es), Counts(cs)) ==> Leftover(FragSeq(es), Counts(cs))[s] == 0)
  {
    hide Slot, InSlot, Slots, Elements, TakeAll, Leftover, RunSlots;
    var cs := RunSlots(MGET, store, es, SLOTS).0;
    var left := Counts(cs);
    MgetSlotsServe(store, es);
    forall s | s in left ensures left[s] == Count(es[..|es|], s) {
      assert es[..|es|] == es;
    }
    forall j | 0 <= j < |es| ensures Slot(es[j].key) in left {
      HasSlot(es, j);
      MgetAnswers(store, es, SLOTS, Slot(es[j].key));
    }
    TakeServes(cs, store, es, |es|, left);
    assert FragSeq(es)[..|es|] == FragSeq(es);
    assert Mget(store, es)[..|es|] == Mget(store, es);
  }

  lemma MgetSlotsServe(store: Store, es: seq<Entry>)
    ensures Serves(RunSlots(MGET, store, es, SLOTS).0, store, es)
  {
    hide Slot, InSlot, Elements, RunSlots;
    var cs := RunSlots(MGET, store, es, SLOTS).0;
    SlotsAreNatural(MGET, store, es, SLOTS);
    forall s | s in Slots(cs) ensures Elements(cs, s) == Mget(store, InSlot(es, s)) {
      MgetAnswers(store, es, SLOTS, s);
    }
  }

  lemma {:induction false} SlotsAreNatural(t: Cmd, store: Store, es: seq<Entry>, n: nat)
    requires Multi(t)
    ensures forall s | s in Slots(RunSlots(t, store, es, n).0) :: 0 <= s < n
    decreases n
  {
    hide InSlot, Slots, Exec;
    if n == 0 {
      NoSlots();
    } else {
      SlotsAreNatural(t, store, es, n - 1);
      var (cs, st) := RunSlots(t, store, es, n - 1);
      var fs := InSlot(es, n - 1);
      if fs != [] { SlotsSnoc(cs, Answer(n - 1, Some(Exec(t, st, fs).0))); }
    }
  }

  /**
    Fragmentation preserves meaning: for every store and every MGET, DEL or MSET, duplicate
    keys included, the merged reply and the final store are those of the whole command.
    */
  lemma FragmentationPreservesMeaning(t: Cmd, store: Store, es: seq<Entry>)
    requires Multi(t)
    ensures var (cs, st) := RunSlots(t, store, es, SLOTS);
      (MergeReplies(t, FragSeq(es), cs), st) == (Some(Exec(t, store, es).0), Exec(t, store, es).1)
  {
    hide FirstProblem, TakeAll, Counts, Total, RunSlots, Mset, Del, Mget, DelSlots, MsetSlots, FragSeq, Leftover;
    RunSlotsPass(t, store, es, SLOTS);
    if t == MGET {
      MgetMerges(store, es);
      MgetAnswers(store, es, SLOTS, 0);
      FragSeqLength(es);
    } else if t == DEL {
      DelAnswers(store, es, SLOTS);
      DelSlotsIsDel(store, es);
    } else {
      MsetAnswers(store, es, SLOTS);
      MsetSlotsIsMset(store, es);
    }
  }

  lemma FragSeqLength(es: seq<Entry>)
    ensures |FragSeq(es)| == |es|
  {
  }
}
