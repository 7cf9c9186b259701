/**
 An execution is determined by what it is asked to do and by the world it starts in: of two runs that both
 follow the rules, neither can differ from the other in a single state.
 */
module EvmUnique {
  import opened Bytes
  import opened World
  import opened Effects
  import opened EvmCode
  import opened EvmMachine
  import opened EvmGas
  import opened EvmLook
  import opened EvmRun
  import opened EvmLaws

  /** A run goes on or ends; no state allows both. */
  lemma EndsOrTurns(rules: Rules, depth: nat, f: Frame, t: Turn, r: Machine, ret: seq<Byte>, err: Option<VmError>, left: nat,
                    end: State)
    requires Turns(rules, depth, f, t, r)
    ensures !Ends(f, t.at, ret, err, left, end)
  {
    var p := Paid(f, t.at).value;
    if Ends(f, t.at, ret, err, left, end) {
      TurnIs(rules, depth, f, t, r);
      ActsOrStops(rules, f, p);
      hide Turns, Paid, CanAct, Act;
    }
  }

  lemma ActsOrStops(rules: Rules, f: Frame, m: Machine)
    requires CanAct(f, m)
    ensures Halts(OpOf(f, m)) || !Known(OpOf(f, m)) ==> Act(rules, f, m).None? && !Calls(OpOf(f, m)) && OpOf(f, m) != CREATE
    ensures (OpOf(f, m) == JUMP || OpOf(f, m) == JUMPI) && Target(f, m).None? ==> Act(rules, f, m).None?
  {
    hide CanAct, Target, Result, ViewOf, Shuffled, Written, LogOf;
  }

  lemma OneEnd(f: Frame, m: Machine, ret: seq<Byte>, err: Option<VmError>, left: nat, end: State,
               ret': seq<Byte>, err': Option<VmError>, left': nat, end': State)
    requires Ends(f, m, ret, err, left, end) && Ends(f, m, ret', err', left', end')
    ensures ret == ret' && err == err' && left == left' && (err.None? ==> end == end')
  {
    hide Paid, CanAct, Known, Target, Suicide, PayError;
  }

  lemma {:induction false} OneTurn(rules: Rules, depth: nat, f: Frame, t: Turn, u: Turn, r: Machine, s: Machine)
    requires Turns(rules, depth, f, t, r) && Turns(rules, depth, f, u, s) && t.at == u.at
    ensures r == s
    decreases t, 1
  {
    var p := Paid(f, t.at).value;
    hide LegalNest, Paid, CanAct, Act;
    if Calls(OpOf(f, t.at)) || OpOf(f, t.at) == CREATE {
      OneNest(rules, depth, p.world, t.inner.value, u.inner.value);
    }
  }

  lemma {:induction false} OneNest(rules: Rules, depth: nat, w: State, n: Nest, u: Nest)
    requires LegalNest(rules, depth, w, n) && LegalNest(rules, depth, w, u) && n.entry == u.entry
    ensures n.out == u.out
    decreases n, 0
  {
    hide LegalTree, Transfer, Entered, Bumped;
    if n.run.Some? {
      OneTree(rules, depth + 1, n.run.value, u.run.value);
    }
  }

  lemma {:induction false} OneTree(rules: Rules, depth: nat, t: Tree, u: Tree)
    requires LegalTree(rules, depth, t) && LegalTree(rules, depth, u)
    requires t.frame == u.frame && t.gas == u.gas && t.start == u.start
    ensures |t.turns| == |u.turns| && forall i | 0 <= i < |t.turns| :: t.turns[i].at == u.turns[i].at
    ensures t.ret == u.ret && t.err == u.err && t.left == u.left && (t.err.None? ==> t.end == u.end)
    decreases t, 0
  {
    var f := t.frame;
    if !Builtin(f.codeAddr) && f.code != [] {
      TreeChain(rules, depth, t);
      TreeChain(rules, depth, u);
      hide LegalTree, Ends;
      var n, k := |t.turns| - 1, |u.turns| - 1;
      forall i | 0 <= i <= n && i <= k ensures t.turns[i].at == u.turns[i].at {
        SameState(rules, depth, t, u, i);
      }
      if n < k {
        TreeAt(rules, depth, u, n);
        EndsOrTurns(rules, depth, f, u.turns[n], u.turns[n + 1].at, t.ret, t.err, t.left, t.end);
      } else if k < n {
        TreeAt(rules, depth, t, k);
        EndsOrTurns(rules, depth, f, t.turns[k], t.turns[k + 1].at, u.ret, u.err, u.left, u.end);
      }
      OneEnd(f, t.turns[n].at, t.ret, t.err, t.left, t.end, u.ret, u.err, u.left, u.end);
    }
  }

  /** The states of a run of real code, from the first on. */
  lemma TreeAt(rules: Rules, depth: nat, t: Tree, i: nat)
    requires LegalTree(rules, depth, t) && !Builtin(t.frame.codeAddr) && t.frame.code != [] && i < |t.turns|
    ensures t.turns[0].at == Begin(t.gas, t.start)
    ensures if i + 1 < |t.turns| then Turns(rules, depth, t.frame, t.turns[i], t.turns[i + 1].at)
            else Ends(t.frame, t.turns[i].at, t.ret, t.err, t.left, t.end)
  {
    hide LegalTree, Turns, Ends, Chained;
    TreeChain(rules, depth, t);
    var n := |t.turns| - 1;
    if n == 0 {
      ChainNone(rules, depth, t.frame, t.turns[..0], Begin(t.gas, t.start), t.turns[0].at);
    } else {
      ChainAt(rules, depth, t.frame, t.turns[..n], Begin(t.gas, t.start), t.turns[n].at, if i < n then i else 0);
    }
  }

  lemma ChainNone(rules: Rules, depth: nat, f: Frame, turns: seq<Turn>, first: Machine, r: Machine)
    requires Chained(rules, depth, f, turns, first, r) && turns == []
    ensures r == first
  {}

  lemma {:induction false} SameState(rules: Rules, depth: nat, t: Tree, u: Tree, i: nat)
    requires LegalTree(rules, depth, t) && LegalTree(rules, depth, u)
    requires t.frame == u.frame && t.gas == u.gas && t.start == u.start
    requires !Builtin(t.frame.codeAddr) && t.frame.code != [] && i < |t.turns| && i < |u.turns|
    ensures t.turns[i].at == u.turns[i].at
    decreases t.turns, i
  {
    hide LegalTree, Turns, Ends;
    TreeAt(rules, depth, t, if i > 0 then i - 1 else 0);
    TreeAt(rules, depth, u, if i > 0 then i - 1 else 0);
    if i > 0 {
      SameState(rules, depth, t, u, i - 1);
      OneTurn(rules, depth, t.frame, t.turns[i - 1], u.turns[i - 1], t.turns[i].at, u.turns[i].at);
    }
  }

  // ---------- a program ----------

  /** PUSH1 1, PUSH1 0, SSTORE, STOP. */
  const STORE_ONE: seq<Byte> := [0x60, 1, 0x60, 0, 0x55, 0]

  lemma PushGoes(f: Frame, m: Machine)
    requires OpOf(f, m) == PUSH1 && m.slice <= 1024 && m.gas >= 3
    ensures Paid(f, m).Some?
  {
    hide Widened;
    NoMemory(f, m);
  }

  lemma StoreGoes(f: Frame, m: Machine)
    requires OpOf(f, m) == SSTORE && |m.items| >= 2 && m.gas >= 20000
    ensures Paid(f, m).Some?
  {
    hide Widened, Storage;
    StorePrice(f, m);
  }

  lemma StopGoes(f: Frame, m: Machine)
    requires OpOf(f, m) == STOP
    ensures Paid(f, m).Some? && Paid(f, m).value.gas == m.gas && Paid(f, m).value.world == m.world
  {
    hide Widened;
    NoMemory(f, m);
  }

  /** A state whose opcode is paid for and goes on is not the last. */
  lemma NotLast(rules: Rules, depth: nat, t: Tree, i: nat)
    requires LegalTree(rules, depth, t) && !Builtin(t.frame.codeAddr) && t.frame.code != [] && i < |t.turns|
    requires var op := OpOf(t.frame, t.turns[i].at); op == PUSH1 || op == SSTORE
    requires Paid(t.frame, t.turns[i].at).Some?
    ensures i + 1 < |t.turns| && Turns(rules, depth, t.frame, t.turns[i], t.turns[i + 1].at)
  {
    hide LegalTree, Turns, Paid, CanAct;
    TreeAt(rules, depth, t, i);
  }

  /** Every run of that program with 20006 gas on an empty slot sets the slot to one, and nothing else. */
  lemma StoresOne(rules: Rules, depth: nat, t: Tree)
    requires LegalTree(rules, depth, t) && !Builtin(t.frame.codeAddr) && t.frame.code == STORE_ONE
    requires t.gas >= 20006 && Storage(t.start, t.frame.self, 0) == 0
    ensures t.err.None? && t.ret == [] && t.left == t.gas - 20006
    ensures Storage(t.end, t.frame.self, 0) == 1 && OnlySlot(t.start, t.end, t.frame.self, 0)
  {
    hide *;
    Pushed(rules, depth, t);
    var m, r := t.turns[2].at, t.turns[3].at;
    StoreTurn(rules, depth, t.frame, t.turns[2], r);
    StopsThere(rules, depth, t);
    assert ToHash(Top(m.items, 0)) == 0 && ToHash(Top(m.items, 1)) == 1 by {
      ToHashOf(m.items);
    }
  }

  lemma ToHashOf(d: seq<nat>)
    requires d == [1, 0]
    ensures ToHash(Top(d, 0)) == 0 && ToHash(Top(d, 1)) == 1
  {}

  lemma Pushed(rules: Rules, depth: nat, t: Tree)
    requires LegalTree(rules, depth, t) && !Builtin(t.frame.codeAddr) && t.frame.code == STORE_ONE && t.gas >= 20006
    ensures |t.turns| > 3 && Turns(rules, depth, t.frame, t.turns[2], t.turns[3].at) && OpOf(t.frame, t.turns[2].at) == SSTORE
    ensures var m := t.turns[2].at; m.items == [1, 0] && m.world == t.start && m.gas == t.gas - 6 && m.pc == 4
  {
    hide LegalTree, Turns, Ends, Paid, CanAct, Chained, Pops;
    TreeChain(rules, depth, t);
    TreeAt(rules, depth, t, 0);
    PushStep(rules, depth, t, 0);
    PushStep(rules, depth, t, 1);
    StoreGoes(t.frame, t.turns[2].at);
    NotLast(rules, depth, t, 2);
  }

  lemma PushStep(rules: Rules, depth: nat, t: Tree, i: nat)
    requires LegalTree(rules, depth, t) && !Builtin(t.frame.codeAddr) && i < |t.turns|
    requires var m := t.turns[i].at;
             m.pc + 1 < |t.frame.code| && t.frame.code[m.pc] == PUSH1 && m.slice <= 1024 && m.gas >= 3
    ensures i + 1 < |t.turns|
    ensures var m, r := t.turns[i].at, t.turns[i + 1].at;
            && r.items == m.items + [t.frame.code[m.pc + 1] as nat] && r.pc == m.pc + 2 && r.gas == m.gas - 3
            && r.world == m.world && r.slice == Max(m.slice, |m.items| + 1)
  {
    hide LegalTree, Turns, Paid, CanAct, Shuffled;
    var f, m := t.frame, t.turns[i].at;
    PushGoes(f, m);
    NotLast(rules, depth, t, i);
    var r := t.turns[i + 1].at;
    StackTurn(rules, depth, f, t.turns[i], r);
    ShuffleTurn(rules, depth, f, t.turns[i], r);
    assert r.items == r.items[..|m.items|] + [r.items[|m.items|]];
  }

  lemma StopsThere(rules: Rules, depth: nat, t: Tree)
    requires LegalTree(rules, depth, t) && !Builtin(t.frame.codeAddr) && t.frame.code == STORE_ONE
    requires |t.turns| > 3 && t.turns[3].at.pc == 5
    ensures t.err.None? && t.ret == [] && t.left == t.turns[3].at.gas && t.end == t.turns[3].at.world
  {
    var f, m := t.frame, t.turns[3].at;
    TreeAt(rules, depth, t, 3);
    StopGoes(f, m);
    if |t.turns| > 4 {
      TurnIs(rules, depth, f, t.turns[3], t.turns[4].at);
      ActsOrStops(rules, f, Paid(f, m).value);
    }
    hide LegalTree, Turns, Paid, CanAct, Act;
  }
}
