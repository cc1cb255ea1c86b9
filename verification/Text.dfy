/** Text as the store and the reconciler use it: comma-joined lists, the
    '|'-separated fingerprint, and the byte order of `sort.Strings`. */
module Text {
  import opened Common

  /** A canonical CIDR is plain: non-empty, with neither separator in it. */
  predicate Plain(x: string) {
    x != "" && ',' !in x && '|' !in x
  }

  predicate AllPlain(xs: seq<string>) {
    forall i :: 0 <= i < |xs| ==> Plain(xs[i])
  }

  /** `strings.Join(xs, ",")` */
  function Join(xs: seq<string>): string {
    if |xs| == 0 then "" else if |xs| == 1 then xs[0] else xs[0] + "," + Join(xs[1..])
  }

  /** `strings.Split(s, ",")`: never the empty list. */
  function Split(s: string): (parts: seq<string>)
    ensures parts != []
  {
    if s == "" then [""]
    else
      var rest := Split(s[1..]);
      if s[0] == ',' then [""] + rest else [[s[0]] + rest[0]] + rest[1..]
  }

  lemma {:induction false} SplitWord(x: string)
    requires ',' !in x
    ensures Split(x) == [x]
  {
    if x != "" {
      SplitWord(x[1..]);
      assert [x[0]] + x[1..] == x;
    }
  }

  lemma {:induction false} SplitAtComma(x: string, rest: string)
    requires ',' !in x
    ensures Split(x + "," + rest) == [x] + Split(rest)
  {
    var s := x + "," + rest;
    if x == "" {
      assert s[1..] == rest;
    } else {
      SplitAtComma(x[1..], rest);
      assert s[1..] == x[1..] + "," + rest;
      assert [x[0]] + x[1..] == x;
    }
  }

  /** A stored list comes back as it was written. */
  lemma {:induction false} SplitJoin(xs: seq<string>)
    requires xs != []
    requires forall i :: 0 <= i < |xs| ==> ',' !in xs[i]
    ensures Split(Join(xs)) == xs
  {
    if |xs| == 1 {
      SplitWord(xs[0]);
    } else {
      SplitJoin(xs[1..]);
      SplitAtComma(xs[0], Join(xs[1..]));
    }
  }

  lemma {:induction false} JoinNoPipe(xs: seq<string>)
    requires AllPlain(xs)
    ensures '|' !in Join(xs)
  {
    if |xs| > 1 {
      JoinNoPipe(xs[1..]);
    }
  }

  lemma JoinEmpty(xs: seq<string>)
    requires AllPlain(xs)
    ensures Join(xs) == "" <==> xs == []
  {
    if xs != [] {
      assert Plain(xs[0]);
    }
  }

  /** Comparing joined text is comparing lists. */
  lemma JoinInjective(xs: seq<string>, ys: seq<string>)
    requires AllPlain(xs) && AllPlain(ys)
    requires Join(xs) == Join(ys)
    ensures xs == ys
  {
    JoinEmpty(xs);
    JoinEmpty(ys);
    if xs != [] {
      SplitJoin(xs);
      SplitJoin(ys);
    }
  }

  /** The text after the last '|' is determined by the whole. */
  lemma {:induction false} LastField(p: string, a: string, q: string, b: string)
    requires '|' !in a && '|' !in b
    requires p + "|" + a == q + "|" + b
    ensures p == q && a == b
  {
    var s := p + "|" + a;
    assert s[|p|] == '|' && s[|q|] == '|';
    assert forall i :: |p| < i < |s| ==> s[i] == a[i - |p| - 1];
    assert forall i :: |q| < i < |s| ==> s[i] == b[i - |q| - 1];
    assert p == s[..|p|] && q == s[..|q|];
    assert a == s[|p| + 1..] && b == s[|q| + 1..];
  }

  /** `unicode.IsSpace`, with which `strings.TrimSpace` trims. */
  predicate IsSpace(c: char) {
    || '\t' <= c <= '\r' || c == ' ' || c == '\U{85}' || c == '\U{A0}' || c == '\U{1680}'
    || '\U{2000}' <= c <= '\U{200A}' || c == '\U{2028}' || c == '\U{2029}' || c == '\U{202F}'
    || c == '\U{205F}' || c == '\U{3000}'
  }

  /** `unicode.IsControl`: the Cc category. */
  predicate IsControl(c: char) {
    c <= '\U{1F}' || '\U{7F}' <= c <= '\U{9F}'
  }

  predicate NoSpace(s: string) {
    forall i :: 0 <= i < |s| ==> !IsSpace(s[i])
  }

  function TrimSpace(s: string): string {
    if s == "" then ""
    else if IsSpace(s[0]) then TrimSpace(s[1..])
    else if IsSpace(s[|s| - 1]) then TrimSpace(s[..|s| - 1])
    else s
  }

  // ----- the order of sort.Strings

  predicate Le(a: string, b: string) {
    if a == "" then true
    else if b == "" then false
    else if a[0] == b[0] then Le(a[1..], b[1..])
    else a[0] < b[0]
  }

  /** The two texts agree up to some place, where the first ends or has the
      smaller character. */
  predicate SplitAt(a: string, b: string, i: nat) {
    i <= |a| && i <= |b| && a[..i] == b[..i] && (i == |a| || (i < |b| && a[i] < b[i]))
  }

  /** The order is the lexicographic one. */
  lemma {:induction false} LeExact(a: string, b: string)
    ensures Le(a, b) <==> exists i: nat :: SplitAt(a, b, i)
    decreases |a|
  {
    if a == "" {
      assert SplitAt(a, b, 0);
    } else if b != "" {
      LeExact(a[1..], b[1..]);
      if a[0] == b[0] {
        if i: nat :| SplitAt(a[1..], b[1..], i) {
          assert a[..i + 1] == [a[0]] + a[1..][..i] && b[..i + 1] == [b[0]] + b[1..][..i];
          assert SplitAt(a, b, i + 1);
        }
        if i: nat :| SplitAt(a, b, i) {
          assert a[1..][..i - 1] == a[..i][1..] && b[1..][..i - 1] == b[..i][1..];
          assert SplitAt(a[1..], b[1..], i - 1);
        }
      } else {
        if Le(a, b) {
          assert SplitAt(a, b, 0);
        }
        if i: nat :| SplitAt(a, b, i) {
          assert i > 0 ==> a[..i][0] == b[..i][0];
        }
      }
    }
  }

  lemma LeTotal(a: string, b: string)
    ensures Le(a, b) || Le(b, a)
  {
  }

  lemma {:induction false} LeTransitive(a: string, b: string, c: string)
    requires Le(a, b) && Le(b, c)
    ensures Le(a, c)
  {
    if a != "" && a[0] == b[0] && b[0] == c[0] {
      LeTransitive(a[1..], b[1..], c[1..]);
    }
  }

  lemma {:induction false} LeAntisymmetric(a: string, b: string)
    requires Le(a, b) && Le(b, a)
    ensures a == b
  {
    if a != "" && b != "" {
      LeAntisymmetric(a[1..], b[1..]);
      assert a == [a[0]] + a[1..] && b == [b[0]] + b[1..];
    }
  }

  ghost predicate Ordered(xs: seq<string>) {
    forall i, j :: 0 <= i < j < |xs| ==> Le(xs[i], xs[j])
  }

  function Insert(x: string, xs: seq<string>): seq<string> {
    if xs == [] then [x]
    else if Le(x, xs[0]) then [x] + xs
    else [xs[0]] + Insert(x, xs[1..])
  }

  /** `sort.Strings` */
  function Sort(xs: seq<string>): seq<string> {
    if xs == [] then [] else Insert(xs[0], Sort(xs[1..]))
  }

  lemma {:induction false} InsertMembers(x: string, xs: seq<string>)
    ensures multiset(Insert(x, xs)) == multiset(xs) + multiset{x}
  {
    if xs != [] {
      assert xs == [xs[0]] + xs[1..];
      if !Le(x, xs[0]) {
        InsertMembers(x, xs[1..]);
      }
    }
  }

  lemma {:induction false} InsertOrdered(x: string, xs: seq<string>)
    requires Ordered(xs)
    ensures Ordered(Insert(x, xs))
  {
    if xs != [] {
      if Le(x, xs[0]) {
        forall j | 0 <= j < |xs| ensures Le(x, xs[j]) {
          if j > 0 {
            LeTransitive(x, xs[0], xs[j]);
          }
        }
      } else {
        LeTotal(x, xs[0]);
        InsertOrdered(x, xs[1..]);
        InsertMembers(x, xs[1..]);
        var t := Insert(x, xs[1..]);
        forall j | 0 <= j < |t| ensures Le(xs[0], t[j]) {
          assert t[j] in multiset(t);
          assert t[j] == x || t[j] in multiset(xs[1..]);
        }
      }
    }
  }

  lemma {:induction false} SortSpec(xs: seq<string>)
    ensures multiset(Sort(xs)) == multiset(xs)
    ensures Ordered(Sort(xs))
  {
    if xs != [] {
      SortSpec(xs[1..]);
      InsertMembers(xs[0], Sort(xs[1..]));
      InsertOrdered(xs[0], Sort(xs[1..]));
      assert xs == [xs[0]] + xs[1..];
    }
  }

  lemma DistinctCount<T>(xs: seq<T>)
    ensures Distinct(xs) <==> forall x :: x in xs ==> multiset(xs)[x] == 1
  {
    if xs != [] {
      var last := |xs| - 1;
      DistinctCount(xs[..last]);
      assert xs == xs[..last] + [xs[last]];
      assert multiset(xs) == multiset(xs[..last]) + multiset{xs[last]};
      assert Distinct(xs) <==> Distinct(xs[..last]) && xs[last] !in xs[..last];
      assert forall x :: x in xs[..last] ==> x in xs;
      if forall x :: x in xs ==> multiset(xs)[x] == 1 {
        assert xs[last] in xs;
        assert xs[last] !in multiset(xs[..last]);
        forall x | x in xs[..last] ensures multiset(xs[..last])[x] == 1 {
          assert x in xs;
          assert x in multiset(xs[..last]);
        }
      }
    }
  }

  /** Two ordered duplicate-free lists with the same members are one list. */
  lemma {:induction false} OrderedUnique(xs: seq<string>, ys: seq<string>)
    requires Ordered(xs) && Ordered(ys) && Distinct(xs) && Distinct(ys)
    requires forall x :: x in xs <==> x in ys
    ensures xs == ys
  {
    assert |ys| > 0 ==> ys[0] in xs;
    if xs != [] {
      assert xs[0] in ys;
      var i :| 0 <= i < |ys| && ys[i] == xs[0];
      var j :| 0 <= j < |xs| && xs[j] == ys[0];
      if xs[0] != ys[0] {
        LeAntisymmetric(xs[0], ys[0]);
      }
      forall x ensures x in xs[1..] <==> x in ys[1..] {
        if x in xs[1..] {
          assert x in ys && x != xs[0];
        }
        if x in ys[1..] {
          assert x in xs && x != ys[0];
        }
      }
      OrderedUnique(xs[1..], ys[1..]);
      assert xs == [xs[0]] + xs[1..] && ys == [ys[0]] + ys[1..];
    }
  }
}
