/** What each operation on the world changes, seen through balances, nonces, code and storage. */
module WorldLaws {
  import opened Bytes
  import opened World
  import opened Effects

  ghost predicate SameStorage(w: State, r: State, a: Addr)
  {
    forall k :: Storage(r, a, k) == Storage(w, a, k)
  }

  /** Nonce, code and storage of an account are what they were. */
  ghost predicate SameInside(w: State, r: State, a: Addr)
  {
    Nonce(r, a) == Nonce(w, a) && Code(r, a) == Code(w, a) && SameStorage(w, r, a)
  }

  ghost predicate SameAt(w: State, r: State, a: Addr)
  {
    Balance(r, a) == Balance(w, a) && SameInside(w, r, a) && Removed(r, a) == Removed(w, a)
  }

  lemma TouchLaw(w: State, x: Addr, a: Addr)
    ensures SameAt(w, Touch(w, x), a) && Touch(w, x).refund == w.refund && Touch(w, x).logs == w.logs
  {}

  lemma SetStorageLaw(w: State, x: Addr, k: nat, v: nat, a: Addr, j: nat)
    ensures var r := SetStorage(w, x, k, v);
            && Storage(r, a, j) == (if a == x && j == k then v else Storage(w, a, j))
            && Balance(r, a) == Balance(w, a) && Nonce(r, a) == Nonce(w, a) && Code(r, a) == Code(w, a)
            && Removed(r, a) == Removed(w, a) && r.refund == w.refund && r.logs == w.logs
  {}

  lemma SetNonceLaw(w: State, x: Addr, n: nat, a: Addr)
    ensures var r := SetNonce(w, x, n);
            && Nonce(r, a) == (if a == x then n else Nonce(w, a))
            && Balance(r, a) == Balance(w, a) && Code(r, a) == Code(w, a) && SameStorage(w, r, a) && Removed(r, a) == Removed(w, a)
            && r.refund == w.refund && r.logs == w.logs
  {}

  lemma SetCodeLaw(w: State, x: Addr, c: seq<Byte>, a: Addr)
    ensures var r := SetCode(w, x, c);
            && Code(r, a) == (if a == x then c else Code(w, a))
            && Balance(r, a) == Balance(w, a) && Nonce(r, a) == Nonce(w, a) && SameStorage(w, r, a)
            && Removed(r, a) == Removed(w, a) && r.refund == w.refund && r.logs == w.logs
  {}

  /** A fresh account that inherits only the balance. */
  lemma CreateLaw(w: State, x: Addr, a: Addr)
    ensures var r := Create(w, x);
            && Balance(r, a) == Balance(w, a) && r.refund == w.refund && r.logs == w.logs
            && (if a == x then Nonce(r, a) == 0 && Code(r, a) == [] && forall k :: Storage(r, a, k) == 0 else SameAt(w, r, a))
  {}

  lemma TransferLaw(w: State, from: Addr, to: Addr, v: nat, a: Addr)
    requires from in w.accounts && to in w.accounts && w.accounts[from].balance >= v
    ensures var r := Transfer(w, from, to, v);
            && Balance(r, a) == Balance(w, a) - (if a == from then v else 0) + (if a == to then v else 0)
            && SameInside(w, r, a) && Removed(r, a) == Removed(w, a) && r.refund == w.refund && r.logs == w.logs
  {}

  lemma SuicideLaw(w: State, x: Addr, to: Addr, a: Addr)
    ensures var r := Suicide(w, x, to);
            && Balance(r, a) == (if a == x then 0 else Balance(w, a) + if a == to then Balance(w, x) else 0)
            && SameInside(w, r, a) && r.refund == w.refund && r.logs == w.logs
            && (Removed(r, a) <==> Removed(w, a) || (a == x && (x in w.accounts || x == to)))
  {}

  lemma BumpedLaw(w: State, caller: Addr, creates: bool, a: Addr)
    ensures var r := Bumped(w, caller, creates);
            && Nonce(r, a) == Nonce(w, a) + (if creates && a == caller then 1 else 0)
            && Balance(r, a) == Balance(w, a) && Code(r, a) == Code(w, a) && SameStorage(w, r, a) && Removed(r, a) == Removed(w, a)
            && r.refund == w.refund && r.logs == w.logs
  {
    SetNonceLaw(w, caller, Nonce(w, caller) + 1, a);
  }

  /** Entering an account: a new one is emptied but for its balance, and its creator's nonce rises. */
  lemma EnteredLaw(w: State, caller: Addr, creates: bool, addr: Addr, a: Addr)
    ensures var r := Entered(w, caller, creates, addr);
            && Balance(r, a) == Balance(w, a) && r.refund == w.refund && r.logs == w.logs
            && Nonce(r, a) == (if creates && a == addr then 0 else Nonce(w, a) + if creates && a == caller then 1 else 0)
            && (if creates && a == addr then Code(r, a) == [] && forall k :: Storage(r, a, k) == 0
                else Code(r, a) == Code(w, a) && SameStorage(w, r, a) && Removed(r, a) == Removed(w, a))
  {
    hide Bumped, Create, Touch;
    if creates {
      BumpedLaw(w, caller, true, a);
      CreateLaw(Bumped(w, caller, true), addr, a);
    } else {
      TouchLaw(w, addr, a);
    }
  }

  /** The world a call begins in: entered and paid. */
  lemma BegunLaw(w: State, caller: Addr, creates: bool, addr: Addr, v: nat, a: Addr)
    requires caller in w.accounts && (creates ==> addr != caller) && Balance(w, caller) >= v
    ensures var r := Transfer(Entered(w, caller, creates, addr), caller, addr, v);
            && Balance(r, a) == Balance(w, a) - (if a == caller then v else 0) + (if a == addr then v else 0)
            && r.refund == w.refund && r.logs == w.logs
            && Nonce(r, a) == (if creates && a == addr then 0 else Nonce(w, a) + if creates && a == caller then 1 else 0)
            && (if creates && a == addr then Code(r, a) == [] && forall k :: Storage(r, a, k) == 0
                else Code(r, a) == Code(w, a) && SameStorage(w, r, a))
  {
    hide Entered, Transfer, Code, Nonce;
    EnteredLaw(w, caller, creates, addr, a);
    TransferLaw(Entered(w, caller, creates, addr), caller, addr, v, a);
  }
}
