/**
Names of pipelines: the file order that `sorted` gives them, decimal revisions, and the
pipeline ids derived from both.
*/
module PipelineNames {
  import opened Options

  // ----- order of strings -----

  /** Code-point order, a proper prefix first. */
  predicate Less(a: string, b: string) {
    if b == "" then false
    else if a == "" then true
    else if a[0] == b[0] then Less(a[1..], b[1..])
    else a[0] < b[0]
  }

  /** That is: at the first difference the smaller character comes first, or the shorter string ends. */
  lemma {:induction false} LessAtFirstDifference(a: string, b: string, k: nat)
    requires k <= |a| && k <= |b| && a[..k] == b[..k]
    requires k == |a| || k == |b| || a[k] != b[k]
    ensures Less(a, b) <==> k < |b| && (k == |a| || a[k] < b[k])
    decreases k
  {
    if k > 0 {
      assert a[0] == a[..k][0] == b[..k][0] == b[0];
      assert a[1..][..k - 1] == a[..k][1..] && b[1..][..k - 1] == b[..k][1..];
      LessAtFirstDifference(a[1..], b[1..], k - 1);
    }
  }

  lemma {:induction false} LessTransitive(a: string, b: string, c: string)
    requires Less(a, b) && Less(b, c)
    ensures Less(a, c)
  {
    if a != "" && a[0] == b[0] == c[0] {
      LessTransitive(a[1..], b[1..], c[1..]);
    }
  }

  lemma {:induction false} LessTotal(a: string, b: string)
    ensures a == b || Less(a, b) || Less(b, a)
  {
    if a != "" && b != "" && a[0] == b[0] {
      LessTotal(a[1..], b[1..]);
      assert a == [a[0]] + a[1..] && b == [b[0]] + b[1..];
    }
  }

  /** The order of `name.conf` files. */
  predicate FileBefore(a: string, b: string) {
    Less(a + ".conf", b + ".conf")
  }

  lemma FileBeforeTotal(a: string, b: string)
    requires a != b
    ensures FileBefore(a, b) || FileBefore(b, a)
  {
    LessTotal(a + ".conf", b + ".conf");
    assert (a + ".conf")[..|a + ".conf"| - 5] == a && (b + ".conf")[..|b + ".conf"| - 5] == b;
  }

  /** `xs` lists the names of `s` in strict file order, so each of them once. */
  ghost predicate FileListing(xs: seq<string>, s: set<string>) {
    && (forall i, j | 0 <= i < j < |xs| :: FileBefore(xs[i], xs[j]))
    && (forall x :: x in xs <==> x in s)
  }

  lemma {:induction false} LessIrreflexive(a: string)
    ensures !Less(a, a)
  {
    if a != "" {
      LessIrreflexive(a[1..]);
    }
  }

  lemma ListingIsDistinct(xs: seq<string>, s: set<string>)
    requires FileListing(xs, s)
    ensures forall i, j | 0 <= i < j < |xs| :: xs[i] != xs[j]
  {
    forall i, j | 0 <= i < j < |xs|
      ensures xs[i] != xs[j]
    {
      assert FileBefore(xs[i], xs[j]);
      LessIrreflexive(xs[i] + ".conf");
    }
  }

  /** The position where `x` belongs in a listing. */
  method PlaceOf(xs: seq<string>, x: string) returns (k: nat)
    requires forall i, j | 0 <= i < j < |xs| :: FileBefore(xs[i], xs[j])
    requires x !in xs
    ensures k <= |xs|
    ensures forall i | 0 <= i < k :: FileBefore(xs[i], x)
    ensures forall i | k <= i < |xs| :: FileBefore(x, xs[i])
  {
    k := 0;
    while k < |xs| && FileBefore(xs[k], x)
      invariant k <= |xs| && forall i | 0 <= i < k :: FileBefore(xs[i], x)
    {
      k := k + 1;
    }
    forall i | k <= i < |xs|
      ensures FileBefore(x, xs[i])
    {
      FileBeforeTotal(x, xs[k]);
      if i > k {
        LessTransitive(x + ".conf", xs[k] + ".conf", xs[i] + ".conf");
      }
    }
  }

  lemma InsertKeepsListing(xs: seq<string>, s: set<string>, x: string, k: nat)
    requires FileListing(xs, s) && x !in s && k <= |xs|
    requires forall i | 0 <= i < k :: FileBefore(xs[i], x)
    requires forall i | k <= i < |xs| :: FileBefore(x, xs[i])
    ensures FileListing(xs[..k] + [x] + xs[k..], s + {x})
  {
    var ys := xs[..k] + [x] + xs[k..];
    forall i, j | 0 <= i < j < |ys|
      ensures FileBefore(ys[i], ys[j])
    {
      assert ys[i] == if i < k then xs[i] else if i == k then x else xs[i - 1];
      assert ys[j] == if j < k then xs[j] else if j == k then x else xs[j - 1];
    }
    assert xs == xs[..k] + xs[k..];
    assert forall y :: y in xs <==> y in xs[..k] || y in xs[k..];
  }

  /** `sorted(conf_files)`. */
  method SortFiles(s: set<string>) returns (xs: seq<string>)
    ensures FileListing(xs, s)
    ensures forall i, j | 0 <= i < j < |xs| :: xs[i] != xs[j]
  {
    xs := [];
    var todo := s;
    while todo != {}
      invariant todo <= s && FileListing(xs, s - todo)
      decreases |todo|
    {
      var x :| x in todo;
      var k := PlaceOf(xs, x);
      InsertKeepsListing(xs, s - todo, x, k);
      assert s - todo + {x} == s - (todo - {x});
      xs := xs[..k] + [x] + xs[k..];
      todo := todo - {x};
    }
    ListingIsDistinct(xs, s);
  }

  // ----- pipeline ids -----

  function Digit(d: nat): char
    requires d < 10
  {
    (d + '0' as int) as char
  }

  function Decimal(n: nat): (s: string)
    ensures |s| > 0
  {
    if n < 10 then [Digit(n)] else Decimal(n / 10) + [Digit(n % 10)]
  }

  /** Decimal digits, the first of them not zero unless it is the only one. */
  predicate IsDecimal(s: string) {
    s != "" && (s[0] == '0' ==> s == "0") && forall i | 0 <= i < |s| :: '0' <= s[i] <= '9'
  }

  /** What decimal digits stand for. */
  function Number(s: string): int {
    if s == "" then 0 else 10 * Number(s[..|s| - 1]) + (s[|s| - 1] as int - '0' as int)
  }

  lemma {:induction false} DecimalStandsFor(n: nat)
    ensures IsDecimal(Decimal(n)) && Number(Decimal(n)) == n
  {
    if n < 10 {
      assert Decimal(n)[..0] == "";
    } else {
      DecimalStandsFor(n / 10);
      var s := Decimal(n);
      assert s[..|s| - 1] == Decimal(n / 10);
      assert s[0] == Decimal(n / 10)[0];
      assert n / 10 > 0 && Number("0") == 0;
    }
  }

  lemma DecimalHasNoDash(n: nat)
    ensures '-' !in Decimal(n)
  {
    DecimalStandsFor(n);
  }

  lemma DecimalInjective(m: nat, n: nat)
    requires Decimal(m) == Decimal(n)
    ensures m == n
  {
    DecimalStandsFor(m);
    DecimalStandsFor(n);
  }

  /** The `pipeline.id`: the name, with the revision appended for a non-reloadable pipeline. */
  function IdOf(name: string, revision: Option<nat>): string {
    match revision
    case None => name
    case Some(r) => name + "-" + Decimal(r)
  }

  lemma RevisionedIdsDiffer(a: string, r: nat, b: string, q: nat)
    requires a + "-" + Decimal(r) == b + "-" + Decimal(q)
    ensures a == b && r == q
  {
    var id := a + "-" + Decimal(r);
    DecimalHasNoDash(r);
    DecimalHasNoDash(q);
    assert id[|a|] == '-' && id[|b|] == '-';
    assert forall i | |a| < i < |id| :: id[i] == Decimal(r)[i - |a| - 1];
    assert forall i | |b| < i < |id| :: id[i] == Decimal(q)[i - |b| - 1];
    assert |a| == |b|;
    assert a == id[..|a|] == b;
    assert Decimal(r) == id[|a| + 1..] == Decimal(q);
    DecimalInjective(r, q);
  }

  /**
  Two pipelines get the same id if and only if one is non-reloadable and the other one,
  reloadable, is literally named like that id.
  */
  lemma IdsCollideExactlyWhen(a: string, r: Option<nat>, b: string, q: Option<nat>)
    requires a != b
    ensures IdOf(a, r) == IdOf(b, q) <==>
      (r.Some? && q.None? && b == IdOf(a, r)) || (r.None? && q.Some? && a == IdOf(b, q))
  {
    if r.Some? && q.Some? && IdOf(a, r) == IdOf(b, q) {
      RevisionedIdsDiffer(a, r.value, b, q.value);
    }
  }
}
