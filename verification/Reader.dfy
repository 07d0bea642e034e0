/**
  The incremental reply reader (hiredis-vip-master/read.c): an input buffer with a cursor,
  a stack of nine read tasks and the reply being built, all updated in place.

  Every method is proved against the machine of Resp.dfy; `Drive` carries chunk
  independence over to the object.  Replies are values here: a finished array is stored in
  its parent when it is complete.
  */
module Reader {
  import opened Bytes
  import opened Resp

  const STACK_SIZE := 9
  const COMPACT_AT := 1024

  datatype Task = Task(kind: Option<Kind>, elements: int, idx: int, obj: seq<Reply>)

  /** The byte at i of an sds string, whose terminator may be read. */
  function At(s: bytes, i: nat): byte
    requires i <= |s|
  {
    if i == |s| then NUL else s[i]
  }

  /** seekNewline: the position of the first CR LF, -1 if there is none yet. */
  method SeekNewline(s: bytes) returns (r: int)
    ensures r == -1 || CrlfAt(s, r)
    ensures forall i :: CrlfAt(s, i) ==> 0 <= r <= i
    ensures r == FindCrlf(s)
  {
    var pos := 0;
    var last := |s| - 1;
    while pos < last
      invariant 0 <= pos && (pos <= last || last <= 0 || pos == last + 1)
      invariant forall i | 0 <= i < pos :: !CrlfAt(s, i)
    {
      while pos < last && s[pos] != CR
        invariant 0 <= pos <= last
        invariant forall i | 0 <= i < pos :: !CrlfAt(s, i)
      {
        pos := pos + 1;
      }
      if s[pos] != CR {
        return -1;
      } else {
        if At(s, pos + 1) == LF {
          return pos;
        } else {
          pos := pos + 1;
        }
      }
    }
    return -1;
  }

  /** readLongLong, on input that holds a CR. */
  method ReadLongLong(s: bytes) returns (v: int)
    requires exists i :: 0 <= i < |s| && s[i] == CR
    ensures v == LongLong(s)
  {
    var mult, p := 1, 0;
    if s[0] == MINUS {
      mult, p := -1, 1;
    } else if s[0] == PLUS {
      p := 1;
    }
    ghost var body := s[p..];
    v := 0;
    assert ScanDigits(body, 0) == ScanDigits(s[p..], 0);
    ghost var cr :| 0 <= cr < |s| && s[cr] == CR;
    while s[p] != CR
      invariant 0 <= p <= cr && v >= 0
      invariant ScanDigits(body, 0) == ScanDigits(s[p..], v)
      decreases |s| - p
    {
      var dec := (s[p] as int) - 48;
      assert s[p..][1..] == s[p + 1..];
      if dec >= 0 && dec < 10 {
        v := v * 10;
        v := v + dec;
      } else {
        return -1;
      }
      p := p + 1;
    }
    v := mult * v;
  }

  /** Each task below the current one is an array whose next element is the task above it. */
  ghost predicate StackOk(st: seq<Task>, ridx: int) {
    && |st| == STACK_SIZE
    && -1 <= ridx <= 8
    && (forall i | 0 <= i < ridx :: st[i].kind == Some(ArrayKind) && |st[i].obj| < st[i].elements)
    && (forall i | 0 <= i < ridx :: st[i + 1].idx == |st[i].obj|)
  }

  lemma StackBounds(st: seq<Task>, ridx: int)
    requires StackOk(st, ridx)
    ensures |st| == STACK_SIZE && -1 <= ridx <= 8
  {
  }

  /** The task below the current one is an array with room. */
  lemma BelowIsOpen(st: seq<Task>, ridx: int)
    requires StackOk(st, ridx) && ridx >= 1
    ensures st[ridx - 1].kind == Some(ArrayKind) && st[ridx].idx < st[ridx - 1].elements
  {
  }

  /** The open arrays: the tasks below the current one. */
  ghost function FramesOf(st: seq<Task>, ridx: int): (fs: seq<Frame>)
    requires StackOk(st, ridx)
    ensures Wf(fs)
    ensures |fs| == if ridx < 0 then 0 else ridx
    ensures forall i | 0 <= i < ridx :: fs[i] == Frame(st[i].elements, st[i].obj)
  {
    if ridx < 0 then []
    else
      var fs := seq(ridx, i requires 0 <= i < ridx => Frame(st[i].elements, st[i].obj));
      assert forall i | 0 <= i < ridx :: fs[i] == Frame(st[i].elements, st[i].obj);
      fs
  }

  /** Storing obj as the next element of the innermost array. */
  function Stored(st: seq<Task>, ridx: int, obj: Reply): seq<Task>
    requires |st| == STACK_SIZE && 1 <= ridx <= 8
  {
    st[ridx - 1 := st[ridx - 1].(obj := st[ridx - 1].obj + [obj])]
  }

  lemma RootStack(st: seq<Task>)
    requires |st| == STACK_SIZE
    ensures StackOk(st, -1) && StackOk(st, 0) && FramesOf(st, -1) == [] && FramesOf(st, 0) == []
  {
  }

  /** The two moves of moveToNextTask, against `Deliver`. */
  lemma DeliverPops(st: seq<Task>, ridx: int, obj: Reply)
    requires StackOk(st, ridx) && ridx >= 1 && st[ridx].idx == st[ridx - 1].elements - 1
    ensures StackOk(st, ridx - 1) && StackOk(Stored(st, ridx, obj), ridx - 1)
    ensures Deliver(FramesOf(st, ridx), obj) ==
      Deliver(FramesOf(Stored(st, ridx, obj), ridx - 1), Array(st[ridx - 1].elements, st[ridx - 1].obj + [obj]))
  {
    hide Deliver;
    var fs := FramesOf(st, ridx);
    DeliverFull(fs, obj);
    assert fs[..ridx - 1] == FramesOf(Stored(st, ridx, obj), ridx - 1);
  }

  lemma DeliverFull(fs: seq<Frame>, v: Reply)
    requires fs != [] && |fs[|fs| - 1].done| + 1 == fs[|fs| - 1].elements
    ensures Deliver(fs, v) == Deliver(fs[..|fs| - 1], Array(fs[|fs| - 1].elements, fs[|fs| - 1].done + [v]))
  {
  }

  lemma DeliverStays(st: seq<Task>, ridx: int, obj: Reply)
    requires StackOk(st, ridx) && ridx >= 1 && st[ridx].idx != st[ridx - 1].elements - 1
    ensures var st' := Stored(st, ridx, obj)[ridx := Task(None, -1, st[ridx].idx + 1, [])];
      StackOk(st', ridx) && (FramesOf(st', ridx), Option<Reply>.None) == Deliver(FramesOf(st, ridx), obj)
  {
    hide Deliver;
    var st' := Stored(st, ridx, obj)[ridx := Task(None, -1, st[ridx].idx + 1, [])];
    var fs := FramesOf(st, ridx);
    DeliverMore(fs, obj);
    assert StackOk(st', ridx);
    assert FramesOf(st', ridx) == fs[..ridx - 1] + [Frame(st[ridx - 1].elements, st[ridx - 1].obj + [obj])];
  }

  lemma DeliverMore(fs: seq<Frame>, v: Reply)
    requires fs != [] && |fs[|fs| - 1].done| + 1 != fs[|fs| - 1].elements
    ensures var top := fs[|fs| - 1]; Deliver(fs, v) == (fs[..|fs| - 1] + [top.(done := top.done + [v])], None)
  {}

  lemma PushOpens(st: seq<Task>, ridx: int, elements: int)
    requires StackOk(st, ridx) && 0 <= ridx < 8 && elements > 0 && st[ridx].kind == Some(ArrayKind)
    ensures var st' := st[ridx := st[ridx].(elements := elements, obj := [])][ridx + 1 := Task(None, -1, 0, [])];
      StackOk(st', ridx + 1) && FramesOf(st', ridx + 1) == FramesOf(st, ridx) + [Frame(elements, [])]
  {
  }

  class Reader {
    var err: Option<Fault>
    var buf: bytes
    var pos: nat
    var len: nat
    var rstack: seq<Task>
    var ridx: int
    var reply: Option<Reply>

    /** Between items of a reply. */
    ghost predicate Steady()
      reads this
    {
      && StackOk(rstack, ridx)
      && pos <= len == |buf|
      && (ridx == 8 ==> rstack[8].kind != Some(ArrayKind))
    }

    /** Between calls. */
    ghost predicate Valid()
      reads this
    {
      && Steady()
      && reply.None?
      && (err.Some? ==> buf == [] && ridx == -1)
    }

    /** The machine state this reader stands for. */
    ghost function Abs(): Parse
      requires StackOk(rstack, ridx) && pos <= |buf|
      reads this
    {
      Parse(buf[pos..], if ridx < 0 then None else rstack[ridx].kind, FramesOf(rstack, ridx))
    }

    ghost function Abstract(): State
      requires Valid()
      reads this
    {
      State(Abs(), err)
    }

    constructor ()
      ensures Valid()
      ensures Abstract() == State(FRESH, None)
    {
      err, buf, pos, len := None, [], 0, 0;
      rstack := seq(STACK_SIZE, _ => Task(None, -1, -1, []));
      ridx, reply := -1, None;
    }

    /** __redisReaderSetError */
    method SetError(f: Fault)
      requires |rstack| == STACK_SIZE
      modifies this
      ensures Valid() && err == Some(f) && Abs() == FRESH
    {
      reply := None;
      buf, pos, len := [], 0, 0;
      ridx := -1;
      err := Some(f);
    }

    /**
      The object of the current task is complete: store it in its parent and move on
      (create*Object and moveToNextTask).  Both assertions of the source hold.
      */
    method MoveToNextTask(v: Reply)
      requires StackOk(rstack, ridx) && ridx >= 0 && reply.None?
      modifies this`ridx, this`reply, this`rstack
      ensures StackOk(rstack, ridx) && (ridx >= 0 ==> rstack[ridx].kind.None?)
      ensures (FramesOf(rstack, ridx), reply) == Deliver(old(FramesOf(rstack, ridx)), v)
      ensures reply.Some? <==> ridx == -1
    {
      hide Deliver, StackOk, FramesOf;
      StackBounds(rstack, ridx);
      var obj := v;
      while ridx > 0
        invariant StackOk(rstack, ridx) && ridx >= 0 && reply.None?
        invariant Deliver(FramesOf(rstack, ridx), obj) == Deliver(old(FramesOf(rstack, ridx)), v)
        decreases ridx
      {
        StackBounds(rstack, ridx);
        var cur, prv := rstack[ridx], rstack[ridx - 1];
        BelowIsOpen(rstack, ridx);
        assert prv.kind == Some(ArrayKind);
        if cur.idx == prv.elements - 1 {
          DeliverPops(rstack, ridx, obj);
          rstack := Stored(rstack, ridx, obj);
          ridx := ridx - 1;
          obj := Array(rstack[ridx].elements, rstack[ridx].obj);
        } else {
          assert cur.idx < prv.elements;
          DeliverStays(rstack, ridx, obj);
          rstack := Stored(rstack, ridx, obj)[ridx := Task(None, -1, cur.idx + 1, [])];
          return;
        }
      }
      StackBounds(rstack, ridx);
      RootStack(rstack);
      DeliverRoot(obj);
      reply := Some(obj);
      ridx := -1;
    }

    /** What an item method promises: exactly the machine's step. */
    ghost predicate Did(o: Outcome, ok: bool)
      reads this
    {
      && Steady()
      && match o
         case More(q) => !ok && Valid() && err.None? && ridx >= 0 && Abs() == q
         case Bad(f) => !ok && Valid() && err == Some(f) && Abs() == FRESH
         case Took(q, out) => ok && err.None? && Abs() == q && reply == out && (out.Some? <==> ridx == -1)
    }

    /** readLine: the line at the cursor, which moves past its CR LF. */
    method ReadLine() returns (found: bool, line: bytes, n: int)
      requires pos <= len == |buf|
      modifies this`pos
      ensures line == old(buf[pos..]) && n == FindCrlf(line) && found == (n != -1)
      ensures pos <= len
      ensures found ==> CrlfAt(line, n) && buf[pos..] == line[n + 2..]
      ensures !found ==> pos == old(pos)
    {
      line := buf[pos..];
      n := SeekNewline(line);
      found := n != -1;
      if found {
        pos := pos + n + 2;
      }
    }

    method ProcessLineItem(kind: Kind) returns (ok: bool)
      requires Valid() && err.None? && ridx >= 0 && rstack[ridx].kind == Some(kind)
      requires kind.ErrorKind? || kind.StatusKind? || kind.IntegerKind?
      modifies this
      ensures Did(LineItem(old(Abs()), kind), ok)
    {
      hide FindCrlf, LongLong, Deliver, FramesOf, StackOk;
      var found, p, n := ReadLine();
      if found {
        var obj: Reply;
        if kind.IntegerKind? {
          var v := ReadLongLong(p);
          obj := Integer(v);
        } else {
          obj := if kind.StatusKind? then Status(p[..n]) else Error(p[..n]);
        }
        MoveToNextTask(obj);
        return true;
      }
      return false;
    }

    /** An item of bytelen bytes is consumed and its object stored. */
    method Complete(bytelen: nat, obj: Reply)
      requires Valid() && err.None? && ridx >= 0 && pos + bytelen <= len
      modifies this
      ensures Did(Finish(old(Abs()).input[bytelen..], old(Abs()).frames, obj), true)
    {
      hide Deliver, FramesOf;
      ghost var p := buf[pos..];
      pos := pos + bytelen;
      assert buf[pos..] == p[bytelen..];
      MoveToNextTask(obj);
    }

    method ProcessBulkItem() returns (ok: bool)
      requires Valid() && err.None? && ridx >= 0 && rstack[ridx].kind == Some(StringKind)
      modifies this
      ensures Did(BulkItem(old(Abs())), ok)
    {
      hide FindCrlf, LongLong, Deliver, FramesOf, StackOk, Finish;
      var p := buf[pos..];
      var s := SeekNewline(p);
      if s != -1 {
        var bytelen := s + 2;
        var size := ReadLongLong(p);
        var obj := Nil;
        var success := false;
        if size < 0 {
          success := true;
        } else {
          bytelen := bytelen + size + 2;
          if pos + bytelen <= len {
            obj := Str(p[s + 2..s + 2 + size]);
            success := true;
          }
        }
        if success {
          Complete(bytelen, obj);
          return true;
        }
      }
      return false;
    }

    /** The task of the first element, on top of its array. */
    method Push(elements: int)
      requires StackOk(rstack, ridx) && 0 <= ridx < 8 && elements > 0 && rstack[ridx].kind == Some(ArrayKind)
      modifies this`ridx, this`rstack
      ensures StackOk(rstack, ridx) && ridx == old(ridx) + 1 && rstack[ridx].kind.None?
      ensures FramesOf(rstack, ridx) == old(FramesOf(rstack, ridx)) + [Frame(elements, [])]
    {
      hide FramesOf;
      PushOpens(rstack, ridx, elements);
      rstack := rstack[ridx := rstack[ridx].(elements := elements, obj := [])][ridx + 1 := Task(None, -1, 0, [])];
      ridx := ridx + 1;
    }

    method ProcessMultiBulkItem() returns (ok: bool)
      requires StackOk(rstack, ridx) && pos <= len == |buf| && reply.None? && err.None?
      requires ridx >= 0 && rstack[ridx].kind == Some(ArrayKind)
      modifies this
      ensures Did(ArrayItem(old(Abs())), ok)
    {
      hide FindCrlf, LongLong, Deliver, FramesOf, StackOk;
      assert |rstack| == STACK_SIZE && ridx <= 8 by { StackBounds(rstack, ridx); }
      if ridx == 8 {
        SetError(TooDeep);
        return false;
      }
      var found, p, n := ReadLine();
      if found {
        var elements := ReadLongLong(p);
        if elements == -1 {
          MoveToNextTask(Nil);
        } else if elements > 0 {
          Push(elements);
        } else {
          MoveToNextTask(Array(elements, []));
        }
        return true;
      }
      return false;
    }

    /** processItem */
    method ProcessItem() returns (ok: bool)
      requires Valid() && err.None? && ridx >= 0
      modifies this
      ensures Did(Step(old(Abs())), ok)
    {
      hide FindCrlf, LongLong, Deliver, LineItem, BulkItem, ArrayItem;
      if rstack[ridx].kind.None? {
        if len - pos < 1 {
          return false;
        }
        var b := buf[pos];
        pos := pos + 1;
        assert buf[pos..] == old(buf[pos..])[1..];
        var kind := KindOf(b);
        if kind.None? {
          SetError(BadType(b));
          return false;
        }
        rstack := rstack[ridx := rstack[ridx].(kind := kind)];
        assert FramesOf(rstack, ridx) == old(FramesOf(rstack, ridx));
      }
      match rstack[ridx].kind.value {
        case StringKind => ok := ProcessBulkItem();
        case ArrayKind => ok := ProcessMultiBulkItem();
        case k => ok := ProcessLineItem(k);
      }
    }

    /** redisReaderFeed */
    method FeedChunk(chunk: bytes) returns (ok: bool)
      requires Valid()
      modifies this
      ensures Valid() && ok == err.None?
      ensures Abstract() == Apply(old(Abstract()), Feed(chunk)).0
    {
      hide FramesOf;
      if err.Some? {
        return false;
      }
      if |chunk| >= 1 {
        buf := buf + chunk;
        len := |buf|;
      }
      assert buf[pos..] == old(buf[pos..]) + chunk;
      return true;
    }

    /** redisReaderGetReply */
    method GetReplyObject() returns (ok: bool, r: Option<Reply>)
      requires Valid()
      modifies this
      ensures Valid() && ok == err.None?
      ensures (Abstract(), if r.Some? then [r.value] else []) == Apply(old(Abstract()), GetReply)
    {
      hide Step, FramesOf;
      if err.Some? {
        return false, None;
      }
      ghost var start := Abs();
      if len == 0 {
        NothingToRead(start);
        return true, None;
      }
      if ridx == -1 {
        rstack := rstack[0 := Task(None, -1, -1, [])];
        ridx := 0;
      }
      assert Abs() == start;
      ok := true;
      while ridx >= 0 && ok
        invariant Steady()
        invariant ok && ridx >= 0 ==> Valid() && err.None? && NextReply(Abs()) == NextReply(start)
        invariant ok && ridx == -1 ==> err.None? && reply.Some? && Next(reply, None, Abs()) == NextReply(start)
        invariant !ok ==> Valid() && Next(None, err, Abs()) == NextReply(start)
        invariant !ok && err.None? ==> ridx >= 0
        decreases ok, |buf| - pos
      {
        ok := ProcessItem();
      }
      if err.Some? {
        return false, None;
      }
      if pos >= COMPACT_AT {
        buf := buf[pos..];
        pos := 0;
        len := |buf|;
      }
      r := None;
      if ridx == -1 {
        r := reply;
        reply := None;
      }
      return true, r;
    }

    /** Chunk independence of the object: any calls, in any order, say what the whole stream says. */
    method Drive(ops: seq<Op>) returns (outs: seq<Reply>)
      requires Valid()
      modifies this
      ensures Valid()
      ensures (Abstract(), outs) == Perform(old(Abstract()), ops)
      ensures var later := Outlook(Abstract(), []);
        Outlook(old(Abstract()), Fed(ops)) == (outs + later.0, later.1)
    {
      hide Step, Run, NextReply, Apply, Outlook, FramesOf;
      ghost var start := Abstract();
      outs := [];
      assert ops[..0] == [];
      for i := 0 to |ops|
        invariant Valid()
        invariant (Abstract(), outs) == Perform(start, ops[..i])
      {
        PerformSnoc(start, ops[..i], ops[i]);
        assert ops[..i] + [ops[i]] == ops[..i + 1];
        match ops[i] {
          case Feed(c) =>
            var _ := FeedChunk(c);
            FeedSaysNothing(c);
            assert outs + [] == outs;
          case GetReply =>
            var _, r := GetReplyObject();
            outs := outs + if r.Some? then [r.value] else [];
        }
      }
      assert ops[..|ops|] == ops;
      ChunkIndependence(start, ops);
    }
  }

  lemma {:induction false} PerformSnoc(s: State, ops: seq<Op>, op: Op)
    ensures var (s1, outs) := Perform(s, ops);
      var (s2, out) := Apply(s1, op);
      Perform(s, ops + [op]) == (s2, outs + out)
    decreases |ops|
  {
    hide Apply;
    if ops == [] {
      assert (ops + [op])[1..] == [];
      var out := Apply(s, op).1;
      assert out + [] == [] + out;
    } else {
      assert (ops + [op])[1..] == ops[1..] + [op];
      PerformSnoc(Apply(s, ops[0]).0, ops[1..], op);
      var (s1, outs) := Perform(s, ops);
      var o, rest, out := Apply(s, ops[0]).1, Perform(Apply(s, ops[0]).0, ops[1..]).1, Apply(s1, op).1;
      assert o + (rest + out) == (o + rest) + out;
    }
  }

  lemma DeliverRoot(v: Reply)
    ensures Deliver([], v) == ([], Some(v))
  {
  }

  /** A buffer with nothing in it yields nothing. */
  lemma NothingToRead(p: Parse)
    requires p.input == [] && (p.kind == Some(ArrayKind) ==> |p.frames| < MAX_FRAMES)
    ensures NextReply(p) == Next(None, None, p)
  {
  }

  lemma FeedSaysNothing(c: bytes)
    ensures forall s: State :: Apply(s, Feed(c)).1 == []
  {
  }
}
