/** Endpoint numbers: ep_alloc_number, the reservations, and the table of who holds what. */
module Allocation {
  import opened Bytes

  const NO_IFNUM: byte := 0xFF
  const MAX_EPS := 128

  /** An endpoint object: its number and direction, the interface that owns it, and what its
      descriptor said. */
  datatype EpRec = EpRec(number: nat, dirIn: bool, ifnum: byte, kind: byte, mps: nat, interval: byte)

  /** One entry of ep_map: an index into the endpoint list, with that endpoint's interface. */
  datatype Holder = Nobody | Held(ep: nat, ifnum: byte)

  datatype Pipes = Pipes(eps: seq<EpRec>, holder: seq<Holder>, reserved: seq<byte>) {
    ghost predicate Shape() {
      |holder| == |reserved| == 32
    }
  }

  type Number = n: int | 0 <= n < 16

  function Slot(number: Number, dirIn: bool): (s: nat)
    ensures s < 32
  {
    2 * number + if dirIn then 1 else 0
  }

  function Empty(): (p: Pipes)
    ensures p.Shape()
  {
    Pipes([], seq(32, _ => Nobody), seq(32, _ => 0))
  }

  /** A reservation is stored as the interface number plus one, in a byte. */
  function Mark(owner: byte): byte {
    (owner + 1) % 256
  }

  predicate Allows(p: Pipes, owner: byte, n: Number, dirIn: bool)
    requires p.Shape()
  {
    p.reserved[Slot(n, dirIn)] == 0 || p.reserved[Slot(n, dirIn)] == Mark(owner)
  }

  predicate Grantable(p: Pipes, owner: byte, want: Number, dirIn: bool)
    requires p.Shape()
  {
    var h := p.holder[Slot(want, dirIn)];
    want != 0 && (h.Nobody? || h.ifnum == owner) && Allows(p, owner, want, dirIn)
  }

  predicate Vacant(p: Pipes, owner: byte, n: Number, dirIn: bool)
    requires p.Shape()
  {
    p.holder[Slot(n, dirIn)].Nobody? && Allows(p, owner, n, dirIn)
  }

  /** The lowest vacant number from `from` on, or -1. */
  function Lowest(p: Pipes, owner: byte, dirIn: bool, from: nat): (r: int)
    requires p.Shape() && from <= 16
    ensures r == -1 <==> forall n: Number :: from <= n ==> !Vacant(p, owner, n, dirIn)
    ensures r != -1 ==> from <= r < 16 && Vacant(p, owner, r, dirIn)
    ensures forall n: Number :: from <= n < r ==> !Vacant(p, owner, n, dirIn)
    decreases 16 - from
  {
    if from == 16 then -1
    else if Vacant(p, owner, from, dirIn) then from
    else Lowest(p, owner, dirIn, from + 1)
  }

  /** ep_alloc_number. It fails exactly when the wanted number cannot be granted and none of
      the fifteen is vacant. */
  function Alloc(p: Pipes, owner: byte, want: Number, dirIn: bool): (r: int)
    requires p.Shape()
    ensures r == -1 <==> !Grantable(p, owner, want, dirIn) && forall n: Number :: 1 <= n ==> !Vacant(p, owner, n, dirIn)
    ensures r != -1 ==> 1 <= r < 16 && Grantable(p, owner, r, dirIn)
    ensures Grantable(p, owner, want, dirIn) ==> r == want
    ensures r != -1 && r != want ==> Vacant(p, owner, r, dirIn)
  {
    if Grantable(p, owner, want, dirIn) then want else Lowest(p, owner, dirIn, 1)
  }

  /** The state after an endpoint takes the number allocated for it. */
  function Add(p: Pipes, ep: EpRec): (q: Pipes)
    requires p.Shape() && ep.number < 16
    ensures q.Shape()
  {
    var s := Slot(ep.number, ep.dirIn);
    Pipes(p.eps + [ep], p.holder[s := Held(|p.eps|, ep.ifnum)], p.reserved[s := 0])
  }

  function Claim(p: Pipes, owner: byte, n: Number, dirIn: bool): (q: Pipes)
    requires p.Shape()
    ensures q.Shape()
  {
    p.(reserved := p.reserved[Slot(n, dirIn) := Mark(owner)])
  }

  // ---- runs --------------------------------------------------------------------------

  datatype Op =
    | AddOp(owner: byte, want: Number, dirIn: bool, kind: byte, mps: nat, interval: byte)
    | ClaimOp(owner: byte, want: Number, dirIn: bool)

  function Step(p: Pipes, op: Op): (q: Pipes)
    requires p.Shape()
    ensures q.Shape()
  {
    var n := Alloc(p, op.owner, op.want, op.dirIn);
    match op
    case AddOp(owner, _, dirIn, kind, mps, interval) =>
      if n < 0 || |p.eps| >= MAX_EPS then p else Add(p, EpRec(n, dirIn, owner, kind, mps, interval))
    case ClaimOp(owner, _, dirIn) =>
      if n < 0 then p else Claim(p, owner, n, dirIn)
  }

  function Run(p: Pipes, ops: seq<Op>): (q: Pipes)
    requires p.Shape()
    ensures q.Shape()
    decreases |ops|
  {
    if ops == [] then p else Run(Step(p, ops[0]), ops[1..])
  }

  /** The table names, for every endpoint, a holder of the same interface; and every holder
      is an endpoint with that number, direction and interface. */
  ghost predicate Consistent(p: Pipes) {
    && p.Shape()
    && (forall i :: 0 <= i < |p.eps| ==> p.eps[i].number < 16 && HeldBy(p, Slot(p.eps[i].number, p.eps[i].dirIn), p.eps[i].ifnum))
    && (forall s :: 0 <= s < 32 && p.holder[s].Held? ==> HolderIsEp(p, s))
  }

  ghost predicate HeldBy(p: Pipes, s: nat, ifnum: byte)
    requires p.Shape() && s < 32
  {
    p.holder[s].Held? && p.holder[s].ifnum == ifnum
  }

  ghost predicate HolderIsEp(p: Pipes, s: nat)
    requires p.Shape() && s < 32 && p.holder[s].Held?
  {
    var h := p.holder[s];
    h.ep < |p.eps| && p.eps[h.ep].ifnum == h.ifnum && p.eps[h.ep].number < 16 && Slot(p.eps[h.ep].number, p.eps[h.ep].dirIn) == s
  }

  /** Every holder in the table is an endpoint with that number, direction and interface. This
      outlives every abort; that each endpoint still has its slot may not. */
  ghost predicate Tabled(p: Pipes) {
    && p.Shape()
    && (forall i :: 0 <= i < |p.eps| ==> p.eps[i].number < 16)
    && (forall s :: 0 <= s < 32 && p.holder[s].Held? ==> HolderIsEp(p, s))
  }

  lemma AddKeepsTabled(p: Pipes, ep: EpRec)
    requires Tabled(p) && ep.number < 16
    ensures Tabled(Add(p, ep))
  {
    var q, s := Add(p, ep), Slot(ep.number, ep.dirIn);
    forall t | 0 <= t < 32 && q.holder[t].Held? ensures HolderIsEp(q, t) {
      if t != s {
        assert HolderIsEp(p, t);
      }
    }
  }

  lemma AddKeepsConsistent(p: Pipes, ep: EpRec)
    requires Consistent(p) && 1 <= ep.number < 16 && Grantable(p, ep.ifnum, ep.number, ep.dirIn)
    ensures Consistent(Add(p, ep))
  {
    var q, s := Add(p, ep), Slot(ep.number, ep.dirIn);
    forall i | 0 <= i < |q.eps| ensures q.eps[i].number < 16 && HeldBy(q, Slot(q.eps[i].number, q.eps[i].dirIn), q.eps[i].ifnum) {
      if i < |p.eps| {
        assert HeldBy(p, Slot(p.eps[i].number, p.eps[i].dirIn), p.eps[i].ifnum);
      }
    }
    forall t | 0 <= t < 32 && q.holder[t].Held? ensures HolderIsEp(q, t) {
      if t != s {
        assert HolderIsEp(p, t);
      }
    }
  }

  lemma StepKeepsConsistent(p: Pipes, op: Op)
    requires Consistent(p)
    ensures Consistent(Step(p, op))
  {
    var n := Alloc(p, op.owner, op.want, op.dirIn);
    if op.AddOp? {
      if n >= 0 && |p.eps| < MAX_EPS {
        AddKeepsConsistent(p, EpRec(n, op.dirIn, op.owner, op.kind, op.mps, op.interval));
      }
    } else {
      var q := Step(p, op);
      assert q.eps == p.eps && q.holder == p.holder;
      forall s | 0 <= s < 32 && q.holder[s].Held? ensures HolderIsEp(q, s) {
        assert HolderIsEp(p, s);
      }
      forall i | 0 <= i < |q.eps| ensures q.eps[i].number < 16 && HeldBy(q, Slot(q.eps[i].number, q.eps[i].dirIn), q.eps[i].ifnum) {
        assert HeldBy(p, Slot(p.eps[i].number, p.eps[i].dirIn), p.eps[i].ifnum);
      }
    }
  }

  lemma {:induction false} RunKeepsConsistent(p: Pipes, ops: seq<Op>)
    requires Consistent(p)
    ensures Consistent(Run(p, ops))
    decreases |ops|
  {
    if ops != [] {
      StepKeepsConsistent(p, ops[0]);
      RunKeepsConsistent(Step(p, ops[0]), ops[1..]);
    }
  }

  /** check_endpoint_conflicts. */
  predicate NoConflict(p: Pipes)
    requires p.Shape()
  {
    forall i :: 0 <= i < |p.eps| && p.eps[i].number < 16 ==>
      var h := p.holder[Slot(p.eps[i].number, p.eps[i].dirIn)]; h.Held? ==> h.ifnum == p.eps[i].ifnum
  }

  /** Two endpoints with the same number and direction belong to the same interface. */
  ghost predicate Unshared(p: Pipes) {
    forall i, j :: 0 <= i < |p.eps| && 0 <= j < |p.eps| && p.eps[i].number == p.eps[j].number && p.eps[i].dirIn == p.eps[j].dirIn
      ==> p.eps[i].ifnum == p.eps[j].ifnum
  }

  /** After any sequence of appends and reservations no two interfaces hold the same number
      and direction, and the plug-time check passes. */
  lemma NeverShared(ops: seq<Op>)
    ensures var p := Run(Empty(), ops); Unshared(p) && NoConflict(p)
  {
    RunKeepsConsistent(Empty(), ops);
    var p := Run(Empty(), ops);
    forall i, j | 0 <= i < |p.eps| && 0 <= j < |p.eps| && p.eps[i].number == p.eps[j].number && p.eps[i].dirIn == p.eps[j].dirIn
      ensures p.eps[i].ifnum == p.eps[j].ifnum
    {
      assert HeldBy(p, Slot(p.eps[i].number, p.eps[i].dirIn), p.eps[i].ifnum);
      assert HeldBy(p, Slot(p.eps[j].number, p.eps[j].dirIn), p.eps[j].ifnum);
    }
    forall i | 0 <= i < |p.eps| ensures HeldBy(p, Slot(p.eps[i].number, p.eps[i].dirIn), p.eps[i].ifnum) {}
  }

  // ---- reservations ------------------------------------------------------------------

  /** The slot is the interface's: reserved by it or held by it, and nobody else's. */
  ghost predicate Claimed(p: Pipes, owner: byte, n: Number, dirIn: bool) {
    && p.Shape()
    && Allows(p, owner, n, dirIn)
    && (HeldBy(p, Slot(n, dirIn), owner) || (p.holder[Slot(n, dirIn)].Nobody? && p.reserved[Slot(n, dirIn)] != 0))
  }

  lemma ClaimClaims(p: Pipes, owner: byte, want: Number, dirIn: bool)
    requires p.Shape() && owner != NO_IFNUM && Alloc(p, owner, want, dirIn) > 0
    ensures var n := Alloc(p, owner, want, dirIn); Claimed(Claim(p, owner, n, dirIn), owner, n, dirIn)
  {}

  lemma StepKeepsClaim(p: Pipes, op: Op, owner: byte, n: Number, dirIn: bool)
    requires Claimed(p, owner, n, dirIn)
    ensures Claimed(Step(p, op), owner, n, dirIn)
  {
    var m := Alloc(p, op.owner, op.want, op.dirIn);
    if m >= 0 && Slot(m, op.dirIn) == Slot(n, dirIn) {
      assert m == n && op.dirIn == dirIn;
      assert op.owner == owner;
    }
  }

  lemma {:induction false} RunKeepsClaim(p: Pipes, ops: seq<Op>, owner: byte, n: Number, dirIn: bool)
    requires Claimed(p, owner, n, dirIn)
    ensures Claimed(Run(p, ops), owner, n, dirIn)
    decreases |ops|
  {
    if ops != [] {
      StepKeepsClaim(p, ops[0], owner, n, dirIn);
      RunKeepsClaim(Step(p, ops[0]), ops[1..], owner, n, dirIn);
    }
  }

  /** A number just reserved is what the interface later gets, whatever anybody appends or
      reserves meanwhile; except that interface number 255, whose mark is zero, reserves
      nothing unless it already holds the number. */
  lemma ReservedIsGrantedIff(p: Pipes, owner: byte, want: Number, dirIn: bool)
    requires Consistent(p) && Alloc(p, owner, want, dirIn) > 0
    ensures var n := Alloc(p, owner, want, dirIn);
      (forall ops :: Alloc(Run(Claim(p, owner, n, dirIn), ops), owner, n, dirIn) == n)
      <==> owner != NO_IFNUM || HeldBy(p, Slot(n, dirIn), owner)
  {
    var n: Number := Alloc(p, owner, want, dirIn);
    var q := Claim(p, owner, n, dirIn);
    if owner != NO_IFNUM || HeldBy(p, Slot(n, dirIn), owner) {
      assert Claimed(q, owner, n, dirIn);
      forall ops ensures Alloc(Run(q, ops), owner, n, dirIn) == n {
        RunKeepsClaim(q, ops, owner, n, dirIn);
      }
    } else {
      LostTo(q, n, dirIn);
    }
  }

  /** What happens to a reservation by interface number 255: interface 0 takes the number. */
  lemma LostTo(q: Pipes, n: Number, dirIn: bool)
    requires q.Shape() && n > 0 && q.holder[Slot(n, dirIn)].Nobody? && q.reserved[Slot(n, dirIn)] == 0
    ensures exists ops :: Alloc(Run(q, ops), NO_IFNUM, n, dirIn) != n
  {
    var ops := [ClaimOp(0, n, dirIn)];
    assert Run(q, ops) == Run(Step(q, ops[0]), ops[1..]) == Step(q, ops[0]);
    assert Alloc(Run(q, ops), NO_IFNUM, n, dirIn) != n;
  }
}
