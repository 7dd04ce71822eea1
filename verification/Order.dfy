/** The order in which a `BTreeMap` or `BTreeSet` of strings is visited. */
module Order {
  predicate Below(a: string, b: string) {
    b != [] && (a == [] || a[0] < b[0] || (a[0] == b[0] && Below(a[1..], b[1..])))
  }

  lemma {:induction false} BelowTotal(a: string, b: string)
    ensures Below(a, b) || a == b || Below(b, a)
  {
    if a != [] && b != [] && a[0] == b[0] {
      BelowTotal(a[1..], b[1..]);
      assert a == [a[0]] + a[1..] && b == [b[0]] + b[1..];
    }
  }

  lemma {:induction false} BelowTransitive(a: string, b: string, c: string)
    requires Below(a, b) && Below(b, c)
    ensures Below(a, c)
  {
    if a != [] && a[0] == b[0] && b[0] == c[0] {
      BelowTransitive(a[1..], b[1..], c[1..]);
    }
  }

  lemma {:induction false} BelowIrreflexive(a: string)
    ensures !Below(a, a)
  {
    if a != [] {
      BelowIrreflexive(a[1..]);
    }
  }

  ghost predicate Least(a: string, s: set<string>) {
    a in s && forall b :: b in s && b != a ==> Below(a, b)
  }

  method TakeLeast(s: set<string>) returns (least: string)
    requires s != {}
    ensures Least(least, s)
  {
    least :| least in s;
    var rest := s - {least};
    while rest != {}
      invariant rest <= s && Least(least, s - rest)
    {
      var x :| x in rest;
      BelowTotal(x, least);
      if Below(x, least) {
        forall b | b in s - rest && b != least ensures Below(x, b) {
          BelowTransitive(x, least, b);
        }
        least := x;
      }
      rest := rest - {x};
    }
    assert s - rest == s;
  }

  // Strings that are visited in the order of other strings.
  type Naming = string -> string

  ghost predicate Injective(name: Naming) {
    forall a, b :: name(a) == name(b) ==> a == b
  }

  ghost predicate LeastBy(name: Naming, a: string, s: set<string>) {
    a in s && forall b :: b in s && b != a ==> Below(name(a), name(b))
  }

  method TakeLeastBy(name: Naming, s: set<string>) returns (least: string)
    requires s != {} && Injective(name)
    ensures LeastBy(name, least, s)
  {
    var x :| x in s;
    var names := set a | a in s :: name(a);
    assert name(x) in names;
    var first := TakeLeast(names);
    least :| least in s && name(least) == first;
    forall b | b in s && b != least ensures Below(name(least), name(b)) {
      assert name(b) in names && name(b) != first;
    }
  }

  ghost predicate Ascending(s: seq<string>) {
    forall i, j :: 0 <= i < j < |s| ==> Below(s[i], s[j])
  }

  // A set listed in order.
  ghost predicate Lists(xs: seq<string>, s: set<string>) {
    Ascending(xs) && forall x :: x in xs <==> x in s
  }

  method Sorted(s: set<string>) returns (xs: seq<string>)
    ensures Lists(xs, s) && |xs| == |s|
  {
    xs := [];
    var left := s;
    while left != {}
      invariant left <= s && Lists(xs, s - left) && |xs| + |left| == |s|
      invariant forall x, y :: x in xs && y in left ==> Below(x, y)
    {
      var x := TakeLeast(left);
      xs := xs + [x];
      left := left - {x};
    }
    assert s - left == s;
  }
}
