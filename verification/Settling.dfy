/**
 The count a reply states of itself (src/budget.rs `settle`): writing the count into
 the reply may change the count.
 */
module Settling {
  import opened Wrappers
  import opened JsonValues
  import opened Decimal
  import opened PageSize

  // The count of the reply, given the count written into it.
  type Recount = nat -> nat

  const ROUNDS := 32

  // The counts written one after the other, from zero.
  function Orbit(count: Recount, k: nat): nat {
    if k == 0 then 0 else count(Orbit(count, k - 1))
  }

  predicate SettledAt(count: Recount, k: nat) {
    count(Orbit(count, k)) == Orbit(count, k)
  }

  // The first of the counts, from one on, that states itself.
  function FirstFrom(count: Recount, k: nat): Option<nat>
    requires k <= ROUNDS
    decreases ROUNDS - k
  {
    if k == ROUNDS then None
    else if SettledAt(count, k) then Some(Orbit(count, k))
    else FirstFrom(count, k + 1)
  }

  lemma {:induction false} FirstFromAt(count: Recount, k: nat, at: nat)
    requires k <= at < ROUNDS && SettledAt(count, at) && forall i :: k <= i < at ==> !SettledAt(count, i)
    ensures FirstFrom(count, k) == Some(Orbit(count, at))
    decreases at - k
  {
    if k < at {
      FirstFromAt(count, k + 1, at);
    }
  }

  lemma {:induction false} FirstFromNone(count: Recount, k: nat)
    requires k <= ROUNDS
    ensures FirstFrom(count, k) == None <==> forall i :: k <= i < ROUNDS ==> !SettledAt(count, i)
    decreases ROUNDS - k
  {
    if k < ROUNDS {
      FirstFromNone(count, k + 1);
      assert (forall i :: k <= i < ROUNDS ==> !SettledAt(count, i))
          <==> !SettledAt(count, k) && forall i :: k + 1 <= i < ROUNDS ==> !SettledAt(count, i);
    }
  }

  // A count seen before leads round in the same circle for ever.
  lemma {:induction false} Circle(count: Recount, j: nat, k: nat, m: nat) returns (i: nat)
    requires j <= k <= m && Orbit(count, k + 1) == Orbit(count, j)
    ensures j <= i <= k && Orbit(count, m) == Orbit(count, i)
  {
    if m == k {
      i := k;
    } else {
      i := Circle(count, j, k, m - 1);
      i := if i == k then j else i + 1;
    }
  }

  // The counts written so far.
  function Stated(count: Recount, i: nat): set<nat> {
    if i == 0 then {} else Stated(count, i - 1) + {Orbit(count, i)}
  }

  lemma {:induction false} StatedAt(count: Recount, i: nat, used: nat) returns (j: nat)
    requires used in Stated(count, i)
    ensures 1 <= j <= i && used == Orbit(count, j)
  {
    if used == Orbit(count, i) {
      j := i;
    } else {
      j := StatedAt(count, i - 1, used);
    }
  }

  lemma NeverSettles(count: Recount, i: nat, used: nat)
    requires used in Stated(count, i) && used == Orbit(count, i + 1)
    requires forall k :: 0 <= k <= i ==> !SettledAt(count, k)
    ensures forall k: nat :: !SettledAt(count, k)
  {
    var j := StatedAt(count, i, used);
    forall k: nat ensures !SettledAt(count, k) {
      if k > i {
        var l := Circle(count, j, i, k);
        assert !SettledAt(count, l);
      }
    }
  }

  /**
   Success means that the stated count is the count of the reply that states it; and
   it fails only if none of the first counts is.
   */
  method Settle(count: Recount) returns (r: Result<nat, string>, ghost rounds: nat)
    ensures r.Ok? ==> count(r.value) == r.value
    ensures r.Ok? ==>
      rounds < ROUNDS && r.value == Orbit(count, rounds) && forall k :: 0 <= k < rounds ==> !SettledAt(count, k)
    ensures r.Err? ==> forall k :: 0 <= k < ROUNDS ==> !SettledAt(count, k)
    ensures FirstFrom(count, 0) == if r.Ok? then Some(r.value) else None
  {
    hide FirstFrom;
    FirstFromNone(count, 0);
    var stated: nat, seen: set<nat> := 0, {};
    for i := 0 to ROUNDS
      invariant stated == Orbit(count, i)
      invariant seen == Stated(count, i)
      invariant forall k :: 0 <= k < i ==> !SettledAt(count, k)
    {
      var used := count(stated);
      if stated == used {
        FirstFromAt(count, 0, i);
        return Ok(used), i;
      }
      if used in seen {
        assert !SettledAt(count, i);
        NeverSettles(count, i, used);
        return Err("budget_accounting_error"), i;
      }
      assert used == Orbit(count, i + 1);
      seen := seen + {used};
      stated := used;
    }
    return Err("budget_accounting_error"), ROUNDS;
  }

  // ----- counting bytes

  function Pow10(n: nat): nat {
    if n == 0 then 1 else 10 * Pow10(n - 1)
  }

  lemma {:induction false} WidthBounds(n: nat)
    ensures n < Pow10(Width(n))
    ensures n >= 10 ==> Pow10(Width(n) - 1) <= n
  {
    if n >= 10 {
      WidthBounds(n / 10);
    }
  }

  lemma {:induction false} WidthFromBounds(n: nat, w: nat)
    requires w >= 1 && n < Pow10(w) && (w == 1 || Pow10(w - 1) <= n)
    ensures Width(n) == w
  {
    if w > 1 {
      if w == 2 { assert Pow10(1) == 10; } else { assert Pow10(w - 2) <= n / 10; PowIsLarge(w - 1); }
      WidthFromBounds(n / 10, w - 1);
    }
  }

  lemma {:induction false} PowIsLarge(w: nat)
    ensures Pow10(w) > w && (w >= 1 ==> Pow10(w) >= 10)
  {
    if w > 0 {
      PowIsLarge(w - 1);
    }
  }

  // Adding the width of a number to it lengthens it once at most.
  lemma WidthGrowsOnce(base: nat)
    ensures var w := Width(base + 1);
      Width(base + w) == w || (Width(base + w) == w + 1 && Width(base + w + 1) == w + 1)
  {
    hide Width;
    var w := Width(base + 1);
    WidthBounds(base + 1);
    PowIsLarge(w);
    assert base + w + 1 < Pow10(w + 1);
    if base + w < Pow10(w) {
      assert base + 1 < 10 ==> base + 1 < Pow10(1);
      if base + 1 < 10 {
        WidthFromBounds(base + 1, 1);
      }
      WidthFromBounds(base + w, w);
    } else {
      WidthFromBounds(base + w, w + 1);
      WidthFromBounds(base + w + 1, w + 1);
    }
  }

  /** Whatever the reply's size, a count in bytes settles at the fourth count or before. */
  lemma BytesSettle(count: Recount, base: nat)
    requires forall n :: count(n) == base + Width(n)
    ensures SettledAt(count, 0) || SettledAt(count, 1) || SettledAt(count, 2) || SettledAt(count, 3)
  {
    var w := Width(base + 1);
    assert Width(0) == 1;
    WidthGrowsOnce(base);
    hide Width;
    assert Orbit(count, 0) == 0;
    assert Orbit(count, 1) == base + 1;
    assert Orbit(count, 2) == base + w;
    assert Orbit(count, 3) == base + Width(base + w);
  }

  // The reply with a count written into it.
  function Stating(reply: Json, used: nat): Json
    requires Get(reply, "budget").Obj?
  {
    Obj(reply.o["budget" := Obj(reply.o["budget"].o["used" := Num(used)])])
  }

  lemma {:induction false} FieldReplaced(a: Json, b: Json, k: string, ks: set<string>)
    requires a.Obj? && b.Obj? && ks <= a.o.Keys && ks <= b.o.Keys
    requires forall l :: l in ks && l != k ==> a.o[l] == b.o[l]
    ensures k in ks ==> FieldsSize(a, ks) + Size(b.o[k]) == FieldsSize(b, ks) + Size(a.o[k])
    ensures k !in ks ==> FieldsSize(a, ks) == FieldsSize(b, ks)
    decreases |ks|
  {
    if ks != {} {
      FieldReplaced(a, b, k, ks - {Any(ks)});
    }
  }

  /** The size of a reply depends on the stated count by its width alone. */
  lemma SizeByWidth(reply: Json, used: nat)
    requires Get(reply, "budget").Obj?
    ensures Size(Stating(reply, used)) + 1 == Size(Stating(reply, 0)) + Width(used)
  {
    hide FieldsSize, Show;
    ShowWidth(used);
    ShowWidth(0);
    var a, b := Stating(reply, used), Stating(reply, 0);
    FieldReplaced(a, b, "budget", a.o.Keys);
    FieldReplaced(a.o["budget"], b.o["budget"], "used", a.o["budget"].o.Keys);
    assert a.o.Keys == b.o.Keys && a.o["budget"].o.Keys == b.o["budget"].o.Keys;
  }

  /**
   Counted in bytes, every reply with a budget settles: one of the first four counts
   is the size of the reply that states it, so `Settle` returns it.
   */
  lemma ReplySettles(count: Recount, reply: Json)
    requires Get(reply, "budget").Obj? && forall n :: count(n) == Size(Stating(reply, n))
    ensures SettledAt(count, 0) || SettledAt(count, 1) || SettledAt(count, 2) || SettledAt(count, 3)
    ensures FirstFrom(count, 0).Some? && Size(Stating(reply, FirstFrom(count, 0).value)) == FirstFrom(count, 0).value
  {
    hide Size, FirstFrom;
    SizeByWidth(reply, 0);
    assert Width(0) == 1;
    var base := Size(Stating(reply, 0)) - 1;
    assert base >= 0 by { SizeIsPositive(Stating(reply, 0)); }
    forall n ensures count(n) == base + Width(n) {
      SizeByWidth(reply, n);
    }
    BytesSettle(count, base);
    FirstFromNone(count, 0);
    FirstIsSettled(count, 0);
  }

  lemma SizeIsPositive(j: Json)
    requires j.Obj?
    ensures Size(j) >= 2
  {
  }

  lemma {:induction false} FirstIsSettled(count: Recount, k: nat)
    requires k <= ROUNDS && FirstFrom(count, k).Some?
    ensures count(FirstFrom(count, k).value) == FirstFrom(count, k).value
    decreases ROUNDS - k
  {
    if !SettledAt(count, k) {
      FirstIsSettled(count, k + 1);
    }
  }
}
