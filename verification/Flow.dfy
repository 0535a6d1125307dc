/** Items with labels, jumps, calls and returns, one step at a time; and the linked bytes do the same. */
module Flow {
  import opened Wrappers
  import opened Words
  import opened Memory
  import opened Regs
  import opened Isa
  import opened Encoding
  import opened Assembly
  import opened Semantics
  import opened Simulation

  /** A program's items and the address of each of them; `adr` has one entry more, for the end. */
  datatype Text = Text(items: seq<Item>, adr: seq<Word>)

  type Listing = x: Text | |x.adr| == |x.items| + 1 witness Text([], [0])

  /** The index of the next item, and the machine. */
  datatype Spot = Spot(pc: nat, m: Machine)

  function Target(items: seq<Item>, l: string): (k: Option<nat>)
    ensures k.Some? ==> k.value < |items| && items[k.value] == Lab(l)
    ensures k.None? ==> Lab(l) !in items
    decreases |items|
  {
    if items == [] then None
    else
      var n := |items| - 1;
      if items[n] == Lab(l) then Some(n)
      else
        assert items == items[..n] + [items[n]];
        Target(items[..n], l)
  }

  function GoTo(x: Listing, l: string, m: Machine): Option<Spot> {
    match Target(x.items, l) case None => None case Some(k) => Some(Spot(k, m))
  }

  /** The item after a call whose address is `a`. */
  function ReturnPoint(x: Listing, a: Word, n: nat): (k: Option<nat>)
    requires n <= |x.items|
    ensures k.Some? ==> 0 < k.value <= n && x.items[k.value - 1].CallTo? && x.adr[k.value] == a
    ensures k.None? ==> forall j | 0 < j <= n && x.items[j - 1].CallTo? :: x.adr[j] != a
  {
    if n == 0 then None
    else if x.items[n - 1].CallTo? && x.adr[n] == a then Some(n)
    else ReturnPoint(x, a, n - 1)
  }

  function Return(x: Listing, m: Machine): Option<Spot> {
    var sp: int := m.regs[RSP];
    match ReturnPoint(x, Load64(m.mem, sp), |x.items|)
    case None => None
    case Some(k) => Some(Spot(k, m.Set(RSP, Wrap(sp + 8))))
  }

  /** One item. None is a fault, an undefined label, the end, or a system call. */
  function FlowStep(x: Listing, s: Spot, syms: Syms): Option<Spot> {
    if s.pc >= |x.items| then None
    else
      match x.items[s.pc]
      case JmpTo(l) => GoTo(x, l, s.m)
      case JccTo(cc, l) =>
        (match Holds(cc, s.m.flags)
         case None => None
         case Some(taken) => if taken then GoTo(x, l, s.m) else Some(Spot(s.pc + 1, s.m)))
      case CallTo(l) => GoTo(x, l, PushValue(s.m, x.adr[s.pc + 1]))
      case Ins(i) =>
        if i == Ret then Return(x, s.m)
        else (match Exec(i, s.m) case None => None case Some(m') => Some(Spot(s.pc + 1, m')))
      case Lab(_) => Some(Spot(s.pc + 1, s.m))
      case LeaTo(d, t) => if t in syms then Some(Spot(s.pc + 1, s.m.Set(d, syms[t]))) else None
  }

  function FlowRun(x: Listing, s: Spot, n: nat, syms: Syms): Option<Spot>
    decreases n
  {
    if n == 0 then Some(s)
    else (match FlowStep(x, s, syms) case None => None case Some(t) => FlowRun(x, t, n - 1, syms))
  }

  /** Some number of steps leads from one spot to the other. */
  ghost predicate Reaches(x: Listing, s: Spot, t: Spot, syms: Syms) {
    exists n: nat :: FlowRun(x, s, n, syms) == Some(t)
  }

  lemma {:induction false} FlowRunAdd(x: Listing, s: Spot, a: nat, b: nat, syms: Syms)
    ensures FlowRun(x, s, a + b,
            syms) == (match FlowRun(x, s, a, syms) case None => None case Some(t) => FlowRun(x, t, b, syms))
    decreases a
  {
    hide FlowStep;
    if a > 0 && FlowStep(x, s, syms).Some? {
      FlowRunAdd(x, FlowStep(x, s, syms).value, a - 1, b, syms);
    }
  }

  lemma ReachSelf(x: Listing, s: Spot, syms: Syms)
    ensures Reaches(x, s, s, syms)
  {
    assert FlowRun(x, s, 0, syms) == Some(s);
  }

  lemma ReachStep(x: Listing, s: Spot, t: Spot, syms: Syms)
    requires FlowStep(x, s, syms) == Some(t)
    ensures Reaches(x, s, t, syms)
  {
    hide FlowStep;
    assert FlowRun(x, t, 0, syms) == Some(t);
    assert FlowRun(x, s, 1, syms) == Some(t);
  }

  lemma ReachTrans(x: Listing, s: Spot, t: Spot, u: Spot, syms: Syms)
    requires Reaches(x, s, t, syms) && Reaches(x, t, u, syms)
    ensures Reaches(x, s, u, syms)
  {
    hide FlowRun;
    var a: nat :| FlowRun(x, s, a, syms) == Some(t);
    var b: nat :| FlowRun(x, t, b, syms) == Some(u);
    FlowRunAdd(x, s, a, b, syms);
  }

  // ---- fragments ----

  /** The fragment stands at `pc`. */
  predicate Stands(x: Listing, pc: nat, frag: seq<Item>) {
    pc + |frag| <= |x.items| && x.items[pc..pc + |frag|] == frag
  }

  lemma StandsPart(x: Listing, pc: nat, a: seq<Item>, b: seq<Item>)
    requires Stands(x, pc, a + b)
    ensures Stands(x, pc, a) && Stands(x, pc + |a|, b)
  {
    assert x.items[pc..pc + |a|] == (a + b)[..|a|];
    assert x.items[pc + |a|..pc + |a| + |b|] == (a + b)[|a|..];
  }

  lemma StandsItem(x: Listing, pc: nat, it: Item)
    requires Stands(x, pc, [it])
    ensures pc < |x.items| && x.items[pc] == it
  {
    assert x.items[pc..pc + 1][0] == it;
  }

  /** A fragment that falls through runs to its end. */
  lemma {:induction false} ReachRun(x: Listing, pc: nat, frag: seq<Item>, m: Machine, m': Machine, syms: Syms)
    requires Stands(x, pc, frag) && Run(frag, m, syms) == Some(m')
    ensures Reaches(x, Spot(pc, m), Spot(pc + |frag|, m'), syms)
    decreases |frag|
  {
    if frag == [] {
      ReachSelf(x, Spot(pc, m), syms);
    } else {
      var it, rest := frag[0], frag[1..];
      assert frag == [it] + rest;
      StandsPart(x, pc, [it], rest);
      StandsItem(x, pc, it);
      var m1 := Step(it, m, syms).value;
      FlowStepIs(x, pc, m, syms);
      hide Run, Step, Stands, FlowStep;
      assert Run(rest, m1, syms) == Some(m') by { RunCons(it, rest, m, syms); }
      ReachStep(x, Spot(pc, m), Spot(pc + 1, m1), syms);
      ReachRun(x, pc + 1, rest, m1, m', syms);
      ReachTrans(x, Spot(pc, m), Spot(pc + 1, m1), Spot(pc + |frag|, m'), syms);
    }
  }

  lemma FlowStepIs(x: Listing, pc: nat, m: Machine, syms: Syms)
    requires pc < |x.items| && Step(x.items[pc], m, syms).Some?
    ensures FlowStep(x, Spot(pc, m), syms) == Some(Spot(pc + 1, Step(x.items[pc], m, syms).value))
  {
    var it := x.items[pc];
    if it.Ins? {
      assert it.ins != Ret;
      hide Exec;
    }
  }

  /** No label is defined twice. */
  predicate Unique(items: seq<Item>) {
    forall i, j | 0 <= i < j < |items| && items[i].Lab? && items[j].Lab? :: items[i] != items[j]
  }

  lemma TargetIs(x: Listing, k: nat, l: string)
    requires Unique(x.items) && k < |x.items| && x.items[k] == Lab(l)
    ensures Target(x.items, l) == Some(k)
  {
  }

  lemma ReachJump(x: Listing, pc: nat, l: string, k: nat, m: Machine, syms: Syms)
    requires Unique(x.items) && Stands(x, pc, [JmpTo(l)]) && k < |x.items| && x.items[k] == Lab(l)
    ensures Reaches(x, Spot(pc, m), Spot(k + 1, m), syms)
  {
    hide Unique;
    StandsItem(x, pc, JmpTo(l));
    TargetIs(x, k, l);
    ReachStep(x, Spot(pc, m), Spot(k, m), syms);
    ReachStep(x, Spot(k, m), Spot(k + 1, m), syms);
    ReachTrans(x, Spot(pc, m), Spot(k, m), Spot(k + 1, m), syms);
  }

  /** A conditional jump goes behind its label, or to the next item. */
  lemma ReachBranch(x: Listing, pc: nat, cc: Cc, l: string, k: nat, m: Machine, taken: bool, syms: Syms)
    requires Unique(x.items) && Stands(x, pc, [JccTo(cc, l)]) && Holds(cc, m.flags) == Some(taken)
    requires k < |x.items| && x.items[k] == Lab(l)
    ensures Reaches(x, Spot(pc, m), Spot(if taken then k + 1 else pc + 1, m), syms)
  {
    hide Unique, Holds;
    StandsItem(x, pc, JccTo(cc, l));
    if taken {
      TargetIs(x, k, l);
      ReachStep(x, Spot(pc, m), Spot(k, m), syms);
      ReachStep(x, Spot(k, m), Spot(k + 1, m), syms);
      ReachTrans(x, Spot(pc, m), Spot(k, m), Spot(k + 1, m), syms);
    } else {
      ReachStep(x, Spot(pc, m), Spot(pc + 1, m), syms);
    }
  }

  // ---- a test with two branches ----

  /** `test; jcc cc other; body; jmp join; other: alt; join:` */
  function BranchCode(test: seq<Item>, cc: Cc, other: string, body: seq<Item>, join: string,
                      alt: seq<Item>): seq<Item> {
    test + ([JccTo(cc, other)] + (body + ([JmpTo(join), Lab(other)] + (alt + [Lab(join)]))))
  }

  /** What it does: the test, then one of the branches. */
  function RunBranch(test: seq<Item>, cc: Cc, body: seq<Item>, alt: seq<Item>, m: Machine,
                     syms: Syms): Option<Machine> {
    match Run(test, m, syms)
    case None => None
    case Some(t) =>
      match Holds(cc, t.flags)
      case None => None
      case Some(taken) => Run(if taken then alt else body, t, syms)
  }

  lemma BranchReaches(x: Listing, pc: nat, test: seq<Item>, cc: Cc, other: string, body: seq<Item>, join: string,
                      alt: seq<Item>,
                      m: Machine, u: Machine, syms: Syms)
    requires Unique(x.items) && Stands(x, pc, BranchCode(test, cc, other, body, join, alt))
    requires RunBranch(test, cc, body, alt, m, syms) == Some(u)
    ensures Reaches(x, Spot(pc, m), Spot(pc + |BranchCode(test, cc, other, body, join, alt)|, u), syms)
  {
    hide Run, Unique, Stands, Holds, Reaches;
    var t := Run(test, m, syms).value;
    var taken := Holds(cc, t.flags).value;
    BranchParts(x, pc, test, cc, other, body, join, alt);
    var p1 := pc + |test|;
    var p2 := p1 + 1 + |body|;
    var end := p2 + 3 + |alt|;
    ReachRun(x, pc, test, m, t, syms);
    ReachBranch(x, p1, cc, other, p2 + 1, t, taken, syms);
    if taken {
      AltReaches(x, p2 + 2, join, alt, t, u, syms);
      ReachTrans(x, Spot(p1, t), Spot(p2 + 2, t), Spot(end, u), syms);
    } else {
      ReachRun(x, p1 + 1, body, t, u, syms);
      ReachJump(x, p2, join, p2 + 2 + |alt|, u, syms);
      ReachTrans(x, Spot(p1, t), Spot(p1 + 1, t), Spot(p2, u), syms);
      ReachTrans(x, Spot(p1, t), Spot(p2, u), Spot(end, u), syms);
    }
    ReachTrans(x, Spot(pc, m), Spot(p1, t), Spot(end, u), syms);
  }

  /** The second branch runs into the label both meet at. */
  lemma AltReaches(x: Listing, pc: nat, join: string, alt: seq<Item>, t: Machine, u: Machine, syms: Syms)
    requires Stands(x, pc, alt) && Stands(x, pc + |alt|, [Lab(join)]) && Run(alt, t, syms) == Some(u)
    ensures Reaches(x, Spot(pc, t), Spot(pc + |alt| + 1, u), syms)
  {
    hide Run, Stands, Reaches;
    ReachRun(x, pc, alt, t, u, syms);
    LabelRuns(join, u, syms);
    ReachRun(x, pc + |alt|, [Lab(join)], u, u, syms);
    ReachTrans(x, Spot(pc, t), Spot(pc + |alt|, u), Spot(pc + |alt| + 1, u), syms);
  }

  /** Where the parts of a test with two branches stand. */
  lemma BranchParts(x: Listing, pc: nat, test: seq<Item>, cc: Cc, other: string, body: seq<Item>, join: string,
                    alt: seq<Item>)
    requires Stands(x, pc, BranchCode(test, cc, other, body, join, alt))
    ensures var p1 := pc + |test|;
            var p2 := p1 + 1 + |body|;
            && Stands(x, pc, test) && Stands(x, p1, [JccTo(cc, other)]) && Stands(x, p1 + 1, body) &&
                 Stands(x, p2, [JmpTo(join)])
            && p2 + 1 < |x.items| && x.items[p2 + 1] == Lab(other) && Stands(x, p2 + 2, alt)
            && Stands(x, p2 + 2 + |alt|, [Lab(join)])
            && p2 + 2 + |alt| < |x.items| && x.items[p2 + 2 + |alt|] == Lab(join)
  {
    hide Stands;
    var tail := [JmpTo(join), Lab(other)] + (alt + [Lab(join)]);
    var p1 := pc + |test|;
    StandsPart(x, pc, test, [JccTo(cc, other)] + (body + tail));
    StandsPart(x, p1, [JccTo(cc, other)], body + tail);
    StandsPart(x, p1 + 1, body, tail);
    BranchTail(x, p1 + 1 + |body|, other, join, alt);
  }

  lemma BranchTail(x: Listing, p: nat, other: string, join: string, alt: seq<Item>)
    requires Stands(x, p, [JmpTo(join), Lab(other)] + (alt + [Lab(join)]))
    ensures Stands(x, p, [JmpTo(join)]) && p + 1 < |x.items| && x.items[p + 1] == Lab(other) && Stands(x, p + 2, alt)
    ensures Stands(x, p + 2 + |alt|, [Lab(join)])
    ensures p + 2 + |alt| < |x.items| && x.items[p + 2 + |alt|] == Lab(join)
  {
    hide Stands;
    var rest := alt + [Lab(join)];
    PairFirst(JmpTo(join), Lab(other), rest);
    StandsPart(x, p, [JmpTo(join)], [Lab(other)] + rest);
    StandsPart(x, p + 1, [Lab(other)], rest);
    StandsPart(x, p + 2, alt, [Lab(join)]);
    StandsItem(x, p + 1, Lab(other));
    StandsItem(x, p + 2 + |alt|, Lab(join));
  }

  lemma PairFirst(a: Item, b: Item, l: seq<Item>)
    ensures [a, b] + l == [a] + ([b] + l)
  {
  }

  lemma LabelRuns(l: string, m: Machine, syms: Syms)
    ensures Run([Lab(l)], m, syms) == Some(m)
  {
    Run1(Lab(l), m, syms);
  }

  // ---- a loop with its test at the end ----

  /** `loop: body; jcc cc loop` */
  function LoopCode(loop: string, body: seq<Item>, cc: Cc): seq<Item> {
    [Lab(loop)] + (body + [JccTo(cc, loop)])
  }

  /** What it does in at most n turns; None if it runs longer or faults. */
  function RunLoop(body: seq<Item>, cc: Cc, m: Machine, syms: Syms, n: nat): Option<Machine>
    decreases n
  {
    if n == 0 then None
    else
      match Run(body, m, syms)
      case None => None
      case Some(t) =>
        match Holds(cc, t.flags)
        case None => None
        case Some(again) => if again then RunLoop(body, cc, t, syms, n - 1) else Some(t)
  }

  lemma LoopReaches(x: Listing, pc: nat, loop: string, body: seq<Item>, cc: Cc, m: Machine, t: Machine, n: nat,
                    syms: Syms)
    requires Unique(x.items) && Stands(x, pc, LoopCode(loop, body, cc)) && RunLoop(body, cc, m, syms, n) == Some(t)
    ensures Reaches(x, Spot(pc, m), Spot(pc + |LoopCode(loop, body, cc)|, t), syms)
  {
    hide Unique, Stands, Reaches, RunLoop;
    StandsPart(x, pc, [Lab(loop)], body + [JccTo(cc, loop)]);
    LabelRuns(loop, m, syms);
    ReachRun(x, pc, [Lab(loop)], m, m, syms);
    TurnsReach(x, pc, loop, body, cc, m, t, n, syms);
    ReachTrans(x, Spot(pc, m), Spot(pc + 1, m), Spot(pc + |LoopCode(loop, body, cc)|, t), syms);
  }

  lemma {:induction false} TurnsReach(x: Listing, pc: nat, loop: string, body: seq<Item>, cc: Cc, m: Machine,
                                      t: Machine, n: nat, syms: Syms)
    requires Unique(x.items) && Stands(x, pc, LoopCode(loop, body, cc)) && RunLoop(body, cc, m, syms, n) == Some(t)
    ensures Reaches(x, Spot(pc + 1, m), Spot(pc + |LoopCode(loop, body, cc)|, t), syms)
    decreases n
  {
    hide Unique, Stands, Reaches, Run, Holds;
    var u := Run(body, m, syms).value;
    var again := Holds(cc, u.flags).value;
    var end := pc + 1 + |body|;
    StandsPart(x, pc, [Lab(loop)], body + [JccTo(cc, loop)]);
    StandsPart(x, pc + 1, body, [JccTo(cc, loop)]);
    StandsItem(x, pc, Lab(loop));
    ReachRun(x, pc + 1, body, m, u, syms);
    ReachBranch(x, end, cc, loop, pc, u, again, syms);
    ReachTrans(x, Spot(pc + 1, m), Spot(end, u), Spot(if again then pc + 1 else end + 1, u), syms);
    if again {
      TurnsReach(x, pc, loop, body, cc, u, t, n - 1, syms);
      ReachTrans(x, Spot(pc + 1, m), Spot(pc + 1, u), Spot(end + 1, t), syms);
    }
  }

  // ---- the linked bytes ----

  /** The address of item k. */
  function AdrOf(g: Image, base: Word, k: nat): Word
    requires AllLegal(g.items) && k <= |g.items|
  {
    Wrap(base + Off(g, k))
  }

  /** The items of an image with the addresses they are loaded at. */
  function ListingOf(g: Image, base: Word): Listing
    requires AllLegal(g.items)
  {
    Text(g.items, seq<Word>(|g.items| + 1, k requires 0 <= k <= |g.items| => AdrOf(g, base, k)))
  }

  /** The image's labels are bound once. */
  lemma BuiltUnique(g: Image)
    requires Built(g)
    ensures Unique(g.items)
  {
    EmittedUnique(g.items, g.wide);
  }

  lemma {:induction false} EmittedUnique(items: seq<Item>, wide: bool)
    requires EmitAll(EMPTY, items, wide).Some?
    ensures Unique(items)
    ensures forall k | 0 <= k < |items| && items[k].Lab? :: items[k].name in EmitAll(EMPTY, items, wide).value.labels
    decreases |items|
  {
    hide ItemBytes, LegalItem;
    if items != [] {
      var n := |items| - 1;
      EmittedUnique(items[..n], wide);
      forall k | 0 <= k < n && items[k].Lab?
        ensures items[k].name in EmitAll(EMPTY, items[..n], wide).value.labels && items[k] != items[n]
      {
        assert items[..n][k] == items[k];
      }
      forall i, j | 0 <= i < j < |items| && items[i].Lab? && items[j].Lab?
        ensures items[i] != items[j]
      {
        if j < n { assert items[..n][i] != items[..n][j]; }
      }
    }
  }

  lemma OffWithin(g: Image, k: nat)
    requires Built(g) && k <= |g.items|
    ensures Off(g, k) <= |g.code|
  {
    hide EmitAll, Encode, ItemBytes, Linked;
    LinkedSize(g.items, g.offs, g.wide);
    SizePrefix(g.items, k, g.wide);
  }

  lemma {:induction false} SizePrefix(items: seq<Item>, k: nat, wide: bool)
    requires AllLegal(items) && k <= |items|
    ensures Size(items[..k], wide) <= Size(items, wide)
    decreases |items|
  {
    hide ItemBytes;
    if k < |items| {
      var n := |items| - 1;
      SizePrefix(items[..n], k, wide);
      assert items[..n][..k] == items[..k];
    } else {
      assert items[..k] == items;
    }
  }

  lemma TargetOffset(g: Image, l: string)
    requires Built(g) && Target(g.items, l).Some?
    ensures l in g.offs && g.offs[l] == Off(g, Target(g.items, l).value)
  {
    hide Linked, Size, EmitAll;
    LabelBound(g.items, Target(g.items, l).value, g.wide);
  }

  /** A call, executed from its bytes, pushes the address behind it and goes to its label. */
  lemma CallBytes(g: Image, base: Word, k: nat, m: Machine)
    requires Built(g) && k < |g.items| && g.items[k].CallTo?
    ensures g.items[k].target in g.offs
    ensures CpuStep(g.code, base, Cpu(m, Off(g, k))) ==
            Some(Cpu(PushValue(m, Wrap(base + Off(g, k + 1))), g.offs[g.items[k].target]))
  {
    hide Decode, Size, Linked, Encode, ItemBytes, PushValue;
    FetchItem(g, k);
    OffNext(g, k);
    LeaLength(g.items[k], g.wide);
  }

  /** A return goes to the address on the stack. */
  lemma RetBytes(g: Image, base: Word, k: nat, m: Machine)
    requires Built(g) && k < |g.items| && g.items[k] == Ins(Ret)
    ensures CpuStep(g.code, base, Cpu(m, Off(g, k))) ==
            Some(Cpu(m.Set(RSP, Wrap(m.regs[RSP] as int + 8)), Load64(m.mem, m.regs[RSP]) as int - base))
  {
    hide Decode, Size, Linked, Encode, Load64, EmitAll;
    FetchItem(g, k);
  }

  /** One step of the items is one instruction of the bytes, or none at a label. */
  lemma FlowStepBytes(g: Image, base: Word, s: Spot, t: Spot, syms: Syms)
    requires Built(g) && AllLegal(g.items) && Addresses(g, base, syms) && base as int + |g.code| < TWO64
    requires FlowStep(ListingOf(g, base), s, syms) == Some(t)
    ensures s.pc < |g.items| && t.pc <= |g.items|
    ensures var n := if g.items[s.pc].Lab? then 0 else 1;
            CpuRun(g.code, base, Cpu(s.m, Off(g, s.pc)), n) == Some(Cpu(t.m, Off(g, t.pc)))
  {
    hide CpuStep, Size, Built, Addresses, Off, Holds, PushValue, Exec, Load64, CpuRun;
    var it := g.items[s.pc];
    var here := Cpu(s.m, Off(g, s.pc));
    OneStep(g.code, base, here);
    CpuRunZero(g.code, base, here);
    if it.Lab? {
      LabelOffset(g, s.pc);
    } else if it.JmpTo? || it.JccTo? {
      JumpBytes(g, base, s.pc, s.m);
      if Target(g.items, it.target).Some? { TargetOffset(g, it.target); }
    } else if it.CallTo? {
      CallBytes(g, base, s.pc, s.m);
      TargetOffset(g, it.target);
    } else if it == Ins(Ret) {
      RetBytes(g, base, s.pc, s.m);
      OffWithin(g, t.pc);
      NoWrap(base + Off(g, t.pc));
    } else {
      StraightIs(it, s.m, syms);
      StepBytes(g, base, syms, s.pc, s.m);
    }
  }

  lemma LabelOffset(g: Image, k: nat)
    requires AllLegal(g.items) && k < |g.items| && g.items[k].Lab?
    ensures Off(g, k + 1) == Off(g, k)
  {
    OffNext(g, k);
    LabelIsEmpty(g.items[k], g.wide);
  }

  lemma NoWrap(x: int)
    requires 0 <= x < TWO64
    ensures Wrap(x) == x
  {
  }

  lemma StraightIs(it: Item, m: Machine, syms: Syms)
    requires !it.Lab? && !it.JmpTo? && !it.JccTo? && !it.CallTo?
    requires it.Ins? ==> it.ins != Ret && Exec(it.ins, m).Some?
    ensures StraightItem(it) && (it.LeaTo? || it.Ins?)
  {
  }

  /** Whatever the items reach, the bytes reach: fetch, decode and execute follow every jump, call and return. */
  lemma {:induction false} FlowBytes(g: Image, base: Word, s: Spot, t: Spot, n: nat, syms: Syms) returns (k: nat)
    requires Built(g) && AllLegal(g.items) && Addresses(g, base, syms) && base as int + |g.code| < TWO64
    requires s.pc <= |g.items| && FlowRun(ListingOf(g, base), s, n, syms) == Some(t)
    ensures t.pc <= |g.items| && CpuRun(g.code, base, Cpu(s.m, Off(g, s.pc)), k) == Some(Cpu(t.m, Off(g, t.pc)))
    decreases n
  {
    hide CpuStep, CpuRun, FlowStep, Built, Addresses, Off, ListingOf;
    if n == 0 {
      k := 0;
      CpuRunZero(g.code, base, Cpu(s.m, Off(g, s.pc)));
    } else {
      var u := FlowStep(ListingOf(g, base), s, syms).value;
      FlowStepBytes(g, base, s, u, syms);
      var j := FlowBytes(g, base, u, t, n - 1, syms);
      var i := if g.items[s.pc].Lab? then 0 else 1;
      CpuRunAdd(g.code, base, Cpu(s.m, Off(g, s.pc)), i, j);
      k := i + j;
    }
  }
}
