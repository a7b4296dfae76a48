/** The load generator's throttle: a fractional budget of operations per second, handed out in
    twentieths of a second.  Doubles are modelled as reals; the counters keep their 64 bits. */
module Throttle {
  const PER_SEC: nat := 20
  const TWO63: nat := 0x8000_0000_0000_0000
  const MIN64: int := -0x8000_0000_0000_0000
  const TWO64: nat := 0x1_0000_0000_0000_0000

  function ToInt64(x: int): (r: int)
    ensures MIN64 <= r < TWO63
    ensures MIN64 <= x < TWO63 ==> r == x
  {
    (x + TWO63) % TWO64 - TWO63
  }

  function ToUint64(x: int): (r: nat)
    ensures r < TWO64
    ensures 0 <= x < TWO64 ==> r == x
  {
    x % TWO64
  }

  function Ceil(x: real): int {
    -(-x).Floor
  }

  /** Seconds begun by the time of the `calls`th call, and after it. */
  function SecondsBegun(calls: nat): nat {
    if calls == 0 then 1 else 1 + (calls - 1) / PER_SEC
  }

  function SecondsPaid(calls: nat): nat {
    1 + calls / PER_SEC
  }

  /** What `rate` operations a second come to. */
  function Allotted(rate: real, seconds: nat): real {
    rate * seconds as real
  }

  class Throttle {
    const throttle: real
    const burst: real
    const opsPerDiv: nat
    var opsDelta: int
    var opsPrev: nat
    var left: real
    var divPos: nat
    var started: bool
    ghost var calls: nat
    ghost var granted: nat
    /** The caller has always done just what it was granted. */
    ghost var honest: bool

    constructor (throttle: real, burst: real)
      requires 0.0 <= throttle <= (TWO63 - 1) as real
      ensures Valid() && this.throttle == throttle && this.burst == burst
      ensures calls == 0 && granted == 0 && honest && left == throttle
      ensures opsPerDiv as real - 1.0 < throttle / 20.0 <= opsPerDiv as real
    {
      this.throttle, this.burst, left := throttle, burst, throttle;
      opsPerDiv := Ceil(throttle / 20.0);
      opsDelta, opsPrev, divPos, started := 0, 0, 0, false;
      calls, granted, honest := 0, 0, true;
      new;
    }

    ghost predicate Counters()
      reads this
    {
      && 0.0 <= throttle <= (TWO63 - 1) as real
      && opsPerDiv == Ceil(throttle / 20.0)
      && MIN64 <= opsDelta < TWO63 && opsPrev < TWO64
      && divPos == calls % PER_SEC && (started <==> calls > 0)
      && (burst == 0.0 ==> opsDelta == 0)
      && 0.0 <= left
    }

    /** Operations granted and budget left make up the rate times the seconds begun, and the budget is
        never negative. */
    ghost predicate Balanced()
      reads this
    {
      granted as real + left == Allotted(throttle, SecondsPaid(calls))
    }

    ghost predicate Valid()
      reads this
    {
      Counters() && Balanced() && Spent(burst, honest, opsDelta, throttle, opsPerDiv, divPos, left)
    }

    /** Take over what the caller did with the last grant. */
    method Report(opCount: nat)
      requires Counters() && opCount < TWO64
      modifies this`opsDelta, this`started, this`honest
      ensures started && MIN64 <= opsDelta < TWO63
      ensures burst == 0.0 ==> opsDelta == 0
      ensures honest == (old(honest) && (!old(started) || burst == 0.0 || opCount == opsPrev))
      ensures honest && old(opsDelta) == 0 ==> opsDelta == 0
      ensures burst != 0.0 ==> opsDelta == if old(started) then ToInt64(old(opsDelta) + (opCount - opsPrev)) else old(opsDelta)
    {
      honest := honest && (!started || burst == 0.0 || opCount == opsPrev);
      if !started {
        started := true;
      } else if burst != 0.0 {
        opsDelta := ToInt64(opsDelta + (opCount - opsPrev));
      }
    }

    /** The operations of a division of `base`, less those the caller did too many or plus those it
        left undone.  The account is cleared, or the division goes to paying it off. */
    method Settle(base: nat) returns (ops: nat)
      requires MIN64 <= opsDelta < TWO63 && base < TWO64
      modifies this`opsDelta
      ensures ops < TWO64 && MIN64 <= opsDelta < TWO63
      ensures base < TWO63 ==> ops - opsDelta == base - old(opsDelta)
      ensures base < TWO63 ==> opsDelta >= 0 && (ops == 0 || opsDelta == 0)
      ensures base < TWO63 && old(opsDelta) < base ==> opsDelta == 0
    {
      ops := base;
      if opsDelta < ToInt64(ops) {
        ops := ToUint64(ops - opsDelta);
        opsDelta := 0;
      } else {
        opsDelta := ToInt64(opsDelta - ops);
        ops := 0;
      }
    }

    method Take(opCount: nat) returns (ops: nat)
      requires Valid() && opCount < TWO64
      modifies this
      ensures calls == old(calls) && divPos == old(divPos) && granted == old(granted) + ops && opsPrev == ops < TWO64
      ensures left == old(left) - ops as real && left >= 0.0 && Taken(burst, honest, opsDelta, opsPerDiv, divPos, left)
      ensures started && MIN64 <= opsDelta < TWO63 && (burst == 0.0 ==> opsDelta == 0)
      ensures honest == (old(honest) && (!old(started) || burst == 0.0 || opCount == old(opsPrev)))
      ensures burst != 0.0 && honest ==> ops <= opsPerDiv
      ensures burst != 0.0 && old(started) && MIN64 <= old(opsDelta) + (opCount - old(opsPrev)) < TWO63 ==>
        Charged(opsPerDiv, old(opsDelta) + (opCount - old(opsPrev)), old(left), ops, opsDelta)
    {
      hide ToInt64, ToUint64, SecondsPaid, SecondsBegun, Ceil, Throttle.Balanced;
      ShareFits(throttle);
      ghost var before := left;
      Report(opCount);
      ops := Settle(if burst == 0.0 then ToUint64(left.Floor) else opsPerDiv);
      if ops as real > left {
        ops := left.Floor;
      }
      left := left - ops as real;
      opsPrev, granted := ops, granted + ops;
      if honest {
        SpendShare(before, ops, opsPerDiv, divPos);
      }
    }

    /** Grant the operations of the next division; `opCount` is what the caller did with the last. */
    method Grant(opCount: nat) returns (ops: nat)
      requires Valid() && opCount < TWO64
      modifies this
      ensures Valid() && calls == old(calls) + 1 && granted == old(granted) + ops && opsPrev == ops
      ensures honest == (old(honest) && (!old(started) || burst == 0.0 || opCount == old(opsPrev)))
      ensures ops as real <= old(left)
      ensures burst != 0.0 && honest ==> ops as real < throttle / 20.0 + 1.0
      ensures burst != 0.0 && old(started) && MIN64 <= old(opsDelta) + (opCount - old(opsPrev)) < TWO63 ==>
        Charged(opsPerDiv, old(opsDelta) + (opCount - old(opsPrev)), old(left), ops, opsDelta)
      ensures granted as real <= Allotted(throttle, SecondsBegun(calls))
      ensures burst == 0.0 || (honest && divPos == 0) ==> granted == Allotted(throttle, SecondsBegun(calls)).Floor
    {
      hide ToInt64, ToUint64, SecondsPaid, SecondsBegun, Ceil, Spent, Taken, Allotted, Charged;
      ops := Take(opCount);
      ShareIs(throttle);
      SecondsMatch(calls);
      WholeOps(granted, left, Allotted(throttle, SecondsPaid(calls)));
      Unspent(burst, honest, opsDelta, opsPerDiv, divPos, left);
      NextBalanced(throttle, calls, granted, left);
      NextSpent(burst, honest, opsDelta, throttle, opsPerDiv, divPos, left);
      divPos := (divPos + 1) % PER_SEC;
      calls := calls + 1;
      if divPos == 0 {
        left := left + throttle;
      }
    }
  }

  /** Of a division's share, what the caller did too many so far is held back and what it left undone is
      added, as far as the budget goes; where it did more than the share, the rest is still owed. */
  ghost predicate Charged(share: nat, excess: int, left: real, ops: nat, owed: int) {
    if excess >= share then ops == 0 && owed == excess - share
    else owed == 0 && ops == if (share - excess) as real <= left then share - excess else left.Floor
  }

  /** Without burst less than one operation stays unspent; an honest caller has spent its share of the
      divisions gone by. */
  ghost predicate Spent(burst: real, honest: bool, delta: int, rate: real, share: nat, pos: nat, left: real) {
    && (burst == 0.0 ==> left < 1.0 + if pos == 0 then rate else 0.0)
    && (honest ==> delta == 0 && left < 1.0 + ((PER_SEC - pos) * share) as real)
  }

  /** The same once division `pos` has had its share too. */
  ghost predicate Taken(burst: real, honest: bool, delta: int, share: nat, pos: nat, left: real) {
    && (burst == 0.0 ==> left < 1.0)
    && (honest ==> delta == 0 && left < 1.0 + ((PER_SEC - pos - 1) * share) as real)
  }

  lemma Unspent(burst: real, honest: bool, delta: int, share: nat, pos: nat, left: real)
    requires Taken(burst, honest, delta, share, pos, left) && pos < PER_SEC
    ensures burst == 0.0 || (honest && (pos + 1) % PER_SEC == 0) ==> left < 1.0
  {
  }

  lemma NextSpent(burst: real, honest: bool, delta: int, rate: real, share: nat, pos: nat, left: real)
    requires Taken(burst, honest, delta, share, pos, left) && pos < PER_SEC && share == Ceil(rate / 20.0) && 0.0 <= rate
    ensures Spent(burst, honest, delta, rate, share, (pos + 1) % PER_SEC, if (pos + 1) % PER_SEC == 0 then left + rate else left)
  {
    LastShare(rate, share);
  }

  lemma NextBalanced(rate: real, calls: nat, granted: nat, left: real)
    requires granted as real + left == Allotted(rate, SecondsPaid(calls))
    ensures (calls + 1) % PER_SEC == (calls % PER_SEC + 1) % PER_SEC
    ensures granted as real + (if (calls + 1) % PER_SEC == 0 then left + rate else left) == Allotted(rate, SecondsPaid(calls + 1))
  {
    hide SecondsPaid;
    Paid(rate, calls);
  }

  lemma SecondsMatch(calls: nat)
    ensures SecondsBegun(calls + 1) == SecondsPaid(calls)
  {
  }

  lemma ShareIs(rate: real)
    ensures Ceil(rate / 20.0) as real - 1.0 < rate / 20.0 <= Ceil(rate / 20.0) as real
  {
  }

  lemma ShareFits(rate: real)
    requires 0.0 <= rate <= (TWO63 - 1) as real
    ensures 0 <= Ceil(rate / 20.0) < TWO63
  {
  }

  /** What is granted out of a total, when less than one operation is left, is its whole part. */
  lemma WholeOps(granted: nat, left: real, total: real)
    requires granted as real + left == total && 0.0 <= left
    ensures left < 1.0 ==> granted == total.Floor
  {
  }

  /** Twenty shares are enough for a second. */
  lemma LastShare(rate: real, share: nat)
    requires share == Ceil(rate / 20.0)
    ensures rate <= (PER_SEC * share) as real
  {
  }

  lemma Paid(rate: real, calls: nat)
    ensures SecondsBegun(calls + 1) == SecondsPaid(calls)
    ensures SecondsPaid(calls + 1) == SecondsPaid(calls) + if (calls + 1) % PER_SEC == 0 then 1 else 0
    ensures rate * SecondsPaid(calls + 1) as real
         == rate * SecondsPaid(calls) as real + if (calls + 1) % PER_SEC == 0 then rate else 0.0
  {
    var s := SecondsPaid(calls);
    assert rate * (s + 1) as real == rate * s as real + rate;
  }

  /** Spending a division's share, or all that is left in whole operations. */
  lemma SpendShare(left: real, ops: nat, share: nat, pos: nat)
    requires pos < PER_SEC && 0.0 <= left
    requires ops as real <= left && (ops == share || ops == left.Floor)
    requires left < 1.0 + ((PER_SEC - pos) * share) as real
    ensures left - ops as real < 1.0 + ((PER_SEC - pos - 1) * share) as real
  {
    assert (PER_SEC - pos) * share == (PER_SEC - pos - 1) * share + share;
    assert (PER_SEC - pos - 1) * share >= 0;
  }
}
