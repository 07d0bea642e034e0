/**
  command_post_fragment (hiredis-vip-master/hircluster.c): the replies of the sub-commands
  become the reply of the whole command.
  */
module Merge {
  import opened Resp
  import opened Commands
  import opened Store

  /** A sub-command of the list, named by its slot, with its reply; None is a null pointer. */
  datatype Answer = Answer(slot: int, reply: Option<Reply>)

  datatype Check = Pass | Return(reply: Reply) | Null

  predicate Fits(t: Cmd, r: Reply) {
    if t == MGET then r.Array? else if t == DEL then r.Integer? else r == Status(OK)
  }

  /** The first reply in list order that ends the merge. */
  function FirstProblem(t: Cmd, cs: seq<Answer>): Check
  {
    if cs == [] then Pass
    else match cs[0].reply
      case None => Null
      case Some(r) => if r.Error? then Return(r) else if !Fits(t, r) then Null else FirstProblem(t, cs[1..])
  }

  function Total(cs: seq<Answer>): int
  {
    if cs == [] then 0
    else Total(cs[..|cs| - 1]) + match cs[|cs| - 1].reply case Some(Integer(n)) => n case _ => 0
  }

  /** The elements of the sub-reply of slot s. */
  function Elements(cs: seq<Answer>, s: int): seq<Reply>
  {
    if cs == [] then []
    else if cs[|cs| - 1].slot == s then
      match cs[|cs| - 1].reply case Some(Array(_, es)) => es case _ => []
    else Elements(cs[..|cs| - 1], s)
  }

  /** The keys from the last to the first each take the last element left in their sub-reply. */
  function TakeAll(cs: seq<Answer>, frag: seq<int>, left: map<int, int>): Option<seq<Reply>>
    decreases |frag|
  {
    if frag == [] then Some([])
    else
      var s := frag[|frag| - 1];
      if s !in left || !(0 < left[s] <= |Elements(cs, s)|) then None
      else match TakeAll(cs, frag[..|frag| - 1], left[s := left[s] - 1])
        case None => None
        case Some(out) => Some(out + [Elements(cs, s)[left[s] - 1]])
  }

  /** The element counts after all keys have taken theirs. */
  function Leftover(frag: seq<int>, left: map<int, int>): map<int, int>
    decreases |frag|
  {
    if frag == [] then left
    else
      var s := frag[|frag| - 1];
      Leftover(frag[..|frag| - 1], if s in left then left[s := left[s] - 1] else left)
  }

  function Counts(cs: seq<Answer>): map<int, int> {
    map s | s in Slots(cs) :: |Elements(cs, s)|
  }

  function Slots(cs: seq<Answer>): set<int> {
    set i | 0 <= i < |cs| :: cs[i].slot
  }

  /** The reply the caller gets, None for a null pointer. */
  function MergeReplies(t: Cmd, frag: seq<int>, cs: seq<Answer>): Option<Reply>
  {
    match FirstProblem(t, cs)
    case Null => None
    case Return(r) => Some(r)
    case Pass =>
      if t == MGET then
        match TakeAll(cs, frag, Counts(cs))
        case None => None
        case Some(out) => Some(Array(|frag|, out))
      else if t == DEL then Some(Integer(Total(cs)))
      else Some(Status(OK))
  }

  /** The checking loop, which also adds up the integers. */
  method CheckReplies(t: Cmd, cs: seq<Answer>) returns (c: Check, count: int)
    requires Multi(t)
    ensures c == FirstProblem(t, cs)
    ensures c.Pass? && t == DEL ==> count == Total(cs)
  {
    count := 0;
    assert cs[0..] == cs;
    for i := 0 to |cs|
      invariant FirstProblem(t, cs) == FirstProblem(t, cs[i..])
      invariant t == DEL ==> count == Total(cs[..i])
    {
      assert cs[i..][1..] == cs[i + 1..];
      assert cs[..i + 1][..i] == cs[..i];
      var reply := cs[i].reply;
      if reply.None? {
        return Null, count;
      } else if reply.value.Error? {
        return Return(reply.value), count;
      }
      if t == MGET {
        if !reply.value.Array? { return Null, count; }
      } else if t == DEL {
        if !reply.value.Integer? { return Null, count; }
        count := count + reply.value.integer;
      } else {
        if reply.value != Status(OK) { return Null, count; }
      }
    }
    assert cs[..|cs|] == cs;
    c := Pass;
  }

  /** The MGET loop, from the last key to the first; `left` are the element counts it decrements. */
  method TakeElements(cs: seq<Answer>, frag: seq<int>) returns (out: Option<seq<Reply>>, left: map<int, int>)
    requires forall i | 0 <= i < |frag| :: frag[i] in Slots(cs)
    ensures out == TakeAll(cs, frag, Counts(cs))
    ensures out.Some? ==> left == Leftover(frag, Counts(cs))
  {
    hide Elements, Slots;
    left := Counts(cs);
    var element: seq<Reply> := [];
    var i := |frag| - 1;
    assert frag[..i + 1] == frag;
    assert forall o: seq<Reply> :: o + [] == o;
    while i >= 0
      invariant -1 <= i < |frag| && left.Keys == Slots(cs)
      invariant forall s | s in left :: 0 <= left[s] <= |Elements(cs, s)|
      invariant Leftover(frag[..i + 1], left) == Leftover(frag, Counts(cs))
      invariant TakeAll(cs, frag, Counts(cs)) ==
        match TakeAll(cs, frag[..i + 1], left) case None => None case Some(o) => Some(o + element)
    {
      var s := frag[i];
      var prefix := frag[..i + 1];
      assert prefix[..i] == frag[..i];
      if left[s] == 0 {
        return None, left;
      }
      var x := Elements(cs, s)[left[s] - 1];
      ghost var rest := TakeAll(cs, frag[..i], left[s := left[s] - 1]);
      if rest.Some? {
        assert rest.value + [x] + element == rest.value + ([x] + element);
      }
      element := [x] + element;
      left := left[s := left[s] - 1];
      i := i - 1;
    }
    assert frag[..0] == [];
    assert [] + element == element;
    return Some(element), left;
  }

  /** command_post_fragment */
  method PostFragment(t: Cmd, frag: seq<int>, cs: seq<Answer>) returns (r: Option<Reply>)
    requires Multi(t)
    requires forall i | 0 <= i < |frag| :: frag[i] in Slots(cs)
    ensures r == MergeReplies(t, frag, cs)
  {
    hide FirstProblem, TakeAll, Counts, Total;
    var c, count := CheckReplies(t, cs);
    match c {
      case Null => return None;
      case Return(e) => return Some(e);
      case Pass =>
    }
    if t == MGET {
      var out, _ := TakeElements(cs, frag);
      if out.None? { return None; }
      return Some(Array(|frag|, out.value));
    } else if t == DEL {
      return Some(Integer(count));
    } else {
      return Some(Status(OK));
    }
  }

  // What the merge amounts to ----------------------------------------

  /** A reply of the type that the command calls for. */
  predicate Right(t: Cmd, reply: Option<Reply>) {
    && reply.Some?
    && (t == MGET ==> reply.value.Array?)
    && (t == DEL ==> reply.value.Integer?)
    && (t == MSET ==> reply.value == Status([79, 75]))
  }

  lemma {:induction false} ProblemAt(t: Cmd, cs: seq<Answer>, k: nat)
    requires Multi(t) && k <= |cs| && forall i | 0 <= i < k :: Right(t, cs[i].reply)
    ensures FirstProblem(t, cs) == FirstProblem(t, cs[k..])
    decreases k
  {
    if k == 0 {
      assert cs[0..] == cs;
    } else {
      assert Right(t, cs[0].reply);
      ProblemAt(t, cs[1..], k - 1);
      assert cs[1..][k - 1..] == cs[k..];
    }
  }

  /** The first sub-reply that is an error, all before it being right, is the reply of the command. */
  lemma ErrorIsHandedOut(t: Cmd, frag: seq<int>, cs: seq<Answer>, k: nat)
    requires Multi(t) && k < |cs| && forall i | 0 <= i < k :: Right(t, cs[i].reply)
    requires cs[k].reply.Some? && cs[k].reply.value.Error?
    ensures MergeReplies(t, frag, cs) == cs[k].reply
  {
    ProblemAt(t, cs, k);
  }

  /** When it is null or of another type, the command has no reply. */
  lemma WrongTypeIsNull(t: Cmd, frag: seq<int>, cs: seq<Answer>, k: nat)
    requires Multi(t) && k < |cs| && forall i | 0 <= i < k :: Right(t, cs[i].reply)
    requires !Right(t, cs[k].reply) && (cs[k].reply.Some? ==> !cs[k].reply.value.Error?)
    ensures MergeReplies(t, frag, cs) == None
  {
    ProblemAt(t, cs, k);
  }

  /** How many of the keys from i on are in slot s. */
  function Later(frag: seq<int>, i: nat, s: int): nat
    requires i <= |frag|
    decreases |frag| - i
  {
    if i == |frag| then 0 else Later(frag, i + 1, s) + if frag[i] == s then 1 else 0
  }

  lemma {:induction false} LaterInit(frag: seq<int>, i: nat, s: int)
    requires i < |frag|
    ensures Later(frag, i, s) == Later(frag[..|frag| - 1], i, s) + if frag[|frag| - 1] == s then 1 else 0
    decreases |frag| - i
  {
    if i + 1 < |frag| { LaterInit(frag, i + 1, s); }
  }

  /** Every slot has as many elements left as it has keys. */
  ghost predicate Suffices(cs: seq<Answer>, frag: seq<int>, left: map<int, int>) {
    && (forall s | s in left :: left[s] <= |Elements(cs, s)|)
    && forall i | 0 <= i < |frag| :: frag[i] in left && Later(frag, 0, frag[i]) <= left[frag[i]]
  }

  /** Each key gets the element as far from the end as there are later keys of its slot. */
  ghost predicate Dealt(cs: seq<Answer>, frag: seq<int>, left: map<int, int>, out: seq<Reply>) {
    && |out| == |frag|
    && forall i | 0 <= i < |frag| :: GotOwn(cs, frag, left, out, i)
  }

  ghost predicate GotOwn(cs: seq<Answer>, frag: seq<int>, left: map<int, int>, out: seq<Reply>, i: nat)
    requires i < |frag| == |out|
  {
    var s := frag[i];
    && s in left && 0 <= left[s] - Later(frag, i, s) < |Elements(cs, s)|
    && out[i] == Elements(cs, s)[left[s] - Later(frag, i, s)]
  }

  lemma {:induction false} LaterNone(frag: seq<int>, i: nat, s: int)
    requires i <= |frag| && forall j | i <= j < |frag| :: frag[j] != s
    ensures Later(frag, i, s) == 0
    decreases |frag| - i
  {
    if i < |frag| { LaterNone(frag, i + 1, s); }
  }

  lemma SufficesInit(cs: seq<Answer>, frag: seq<int>, left: map<int, int>)
    requires frag != [] && frag[|frag| - 1] in left && 0 < left[frag[|frag| - 1]]
    requires forall s | s in left :: left[s] <= |Elements(cs, s)|
    ensures
      var n, s := |frag| - 1, frag[|frag| - 1];
      Suffices(cs, frag, left) <==> Suffices(cs, frag[..n], left[s := left[s] - 1])
  {
    hide Elements;
    var n, s := |frag| - 1, frag[|frag| - 1];
    var init, less := frag[..n], left[s := left[s] - 1];
    forall u ensures Later(frag, 0, u) == Later(init, 0, u) + if u == s then 1 else 0 {
      LaterInit(frag, 0, u);
    }
    assert forall i | 0 <= i < n :: init[i] == frag[i];
    if Suffices(cs, init, less) {
      forall i | 0 <= i < |frag| ensures frag[i] in left && Later(frag, 0, frag[i]) <= left[frag[i]] {
        if frag[i] !in init { LaterNone(init, 0, frag[i]); }
        if i < n { assert init[i] in less; }
      }
    }
    if Suffices(cs, frag, left) {
      forall i | 0 <= i < n ensures init[i] in less && Later(init, 0, init[i]) <= less[init[i]] {
        assert frag[i] in left && Later(frag, 0, frag[i]) <= left[frag[i]];
      }
    }
  }

  lemma DealtSnoc(cs: seq<Answer>, frag: seq<int>, left: map<int, int>, out: seq<Reply>)
    requires frag != [] && frag[|frag| - 1] in left && 0 < left[frag[|frag| - 1]] <= |Elements(cs, frag[|frag| - 1])|
    requires
      var n, s := |frag| - 1, frag[|frag| - 1];
      Dealt(cs, frag[..n], left[s := left[s] - 1], out)
    ensures
      var s := frag[|frag| - 1];
      Dealt(cs, frag, left, out + [Elements(cs, s)[left[s] - 1]])
  {
    hide Elements, Later;
    var n, s := |frag| - 1, frag[|frag| - 1];
    var init, less, more := frag[..n], left[s := left[s] - 1], out + [Elements(cs, s)[left[s] - 1]];
    forall i | 0 <= i < |frag| ensures GotOwn(cs, frag, left, more, i) {
      LaterInit(frag, i, frag[i]);
      if i < n {
        assert GotOwn(cs, init, less, out, i) && init[i] == frag[i];
      } else {
        LaterNone(init, n, s);
      }
    }
  }

  /** The keys are all served exactly when every slot has elements enough, and then each has its own. */
  lemma {:induction false} TakeAllExactly(cs: seq<Answer>, frag: seq<int>, left: map<int, int>)
    requires forall s | s in left :: left[s] <= |Elements(cs, s)|
    ensures TakeAll(cs, frag, left).Some? <==> Suffices(cs, frag, left)
    ensures TakeAll(cs, frag, left).Some? ==> Dealt(cs, frag, left, TakeAll(cs, frag, left).value)
    decreases |frag|
  {
    hide Elements, Suffices, Dealt;
    if frag == [] {
      NothingDealt(cs, left);
    } else {
      var n, s := |frag| - 1, frag[|frag| - 1];
      if s in left && 0 < left[s] {
        var less := left[s := left[s] - 1];
        TakeAllExactly(cs, frag[..n], less);
        SufficesInit(cs, frag, left);
        if TakeAll(cs, frag[..n], less).Some? { DealtSnoc(cs, frag, left, TakeAll(cs, frag[..n], less).value); }
      } else {
        NotSuffices(cs, frag, left);
      }
    }
  }

  lemma NothingDealt(cs: seq<Answer>, left: map<int, int>)
    requires forall s | s in left :: left[s] <= |Elements(cs, s)|
    ensures Suffices(cs, [], left) && Dealt(cs, [], left, [])
  {
    hide Elements;
  }

  lemma NotSuffices(cs: seq<Answer>, frag: seq<int>, left: map<int, int>)
    requires frag != [] && (frag[|frag| - 1] !in left || left[frag[|frag| - 1]] <= 0)
    ensures !Suffices(cs, frag, left)
  {
    hide Elements;
    LaterInit(frag, 0, frag[|frag| - 1]);
  }

  /**
    Sub-replies that are all of the right type are merged: an MGET to the array that deals out their
    elements, exactly when there are enough; a DEL to their sum; an MSET to OK.
    */
  lemma RightMerge(t: Cmd, frag: seq<int>, cs: seq<Answer>)
    requires Multi(t) && forall i | 0 <= i < |cs| :: Right(t, cs[i].reply)
    ensures t == MSET ==> MergeReplies(t, frag, cs) == Some(Status([79, 75]))
    ensures t == DEL ==> MergeReplies(t, frag, cs) == Some(Integer(Total(cs)))
    ensures t == MGET ==>
      match MergeReplies(t, frag, cs)
      case None => !Suffices(cs, frag, Counts(cs))
      case Some(r) => r.Array? && r.elements == |frag| && Dealt(cs, frag, Counts(cs), r.element)
  {
    hide TakeAll, Dealt, Suffices, Total, Elements;
    ProblemAt(t, cs, |cs|);
    TakeAllExactly(cs, frag, Counts(cs));
  }
}
