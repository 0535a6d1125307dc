/** Running straight-line symbolic assembly. `Syms` gives the address each data label will have. */
module Semantics {
  import opened Wrappers
  import opened Words
  import opened Memory
  import opened Regs
  import opened Isa
  import opened Assembly

  type Syms = map<string, Word>

  /** None is a fault, or an item that transfers control. */
  function Step(it: Item, m: Machine, syms: Syms): Option<Machine> {
    match it
    case Ins(i) => Exec(i, m)
    case Lab(_) => Some(m)
    case LeaTo(d, t) => if t in syms then Some(m.Set(d, syms[t])) else None
    case JmpTo(_) | JccTo(_, _) | CallTo(_) => None
  }

  function Run(items: seq<Item>, m: Machine, syms: Syms): Option<Machine> {
    if items == [] then Some(m)
    else
      var m' := Step(items[0], m, syms);
      if m'.None? then None else Run(items[1..], m'.value, syms)
  }

  lemma {:induction false} RunConcat(a: seq<Item>, b: seq<Item>, m: Machine, syms: Syms)
    ensures Run(a + b, m, syms) == if Run(a, m, syms).None? then None else Run(b, Run(a, m, syms).value, syms)
  {
    hide Step;
    if a == [] {
      assert a + b == b;
    } else {
      assert (a + b)[0] == a[0] && (a + b)[1..] == a[1..] + b;
      if Step(a[0], m, syms).Some? {
        RunConcat(a[1..], b, Step(a[0], m, syms).value, syms);
      }
    }
  }

  lemma Run1(it: Item, m: Machine, syms: Syms)
    ensures Run([it], m, syms) == Step(it, m, syms)
  {
    hide Step;
    assert [it][1..] == [];
  }

  lemma RunCons(it: Item, rest: seq<Item>, m: Machine, syms: Syms)
    ensures Run([it] + rest, m, syms) ==
            if Step(it, m, syms).None? then None else Run(rest, Step(it, m, syms).value, syms)
  {
    hide Step;
    Run1(it, m, syms);
    RunConcat([it], rest, m, syms);
  }

  /** Chaining: `a` takes m to m1, so running `a + b` is running `b` from m1. */
  lemma Then(a: seq<Item>, b: seq<Item>, m: Machine, m1: Machine, syms: Syms)
    requires Run(a, m, syms) == Some(m1)
    ensures Run(a + b, m, syms) == Run(b, m1, syms)
  {
    RunConcat(a, b, m, syms);
  }
}
