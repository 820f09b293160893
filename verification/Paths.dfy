/**
  Absolute canonical paths as sequences of components, the component loop of
  `isSubpath`, and the string tests the code makes on rendered paths.
 */
module Paths {
  import opened Text

  type Path = seq<string>

  const ROOT: Path := []
  const TMP: Path := ["tmp"]

  /** The loop over two path iterators: `base` covers `sub` when it is a prefix, component by component. */
  method IsSubpath(base: Path, sub: Path) returns (covered: bool)
    ensures covered <==> base <= sub
  {
    var b, s := 0, 0;
    while b < |base| && s < |sub| && base[b] == sub[s]
      invariant b == s && b <= |base| && b <= |sub|
      invariant base[..b] == sub[..b]
    {
      b, s := b + 1, s + 1;
    }
    covered := b == |base|;
  }

  /** Two paths that cover the same path are comparable. */
  lemma CoversAreComparable(a: Path, b: Path, p: Path)
    requires a <= p && b <= p
    ensures a <= b || b <= a
    ensures |a| <= |b| ==> a <= b
  {
    assert a == p[..|a|] && b == p[..|b|];
  }

  function Parent(p: Path): Path {
    if |p| == 0 then ROOT else p[..|p| - 1]
  }

  function Last(p: Path): string
    requires |p| > 0
  {
    p[|p| - 1]
  }

  // ----- rendered paths -----

  predicate IsComponent(c: string) {
    c != "" && '/' !in c
  }

  predicate Canonical(p: Path) {
    forall c <- p :: IsComponent(c)
  }

  function Body(p: Path): string {
    if |p| == 0 then "" else Body(p[..|p| - 1]) + "/" + Last(p)
  }

  function Render(p: Path): string {
    if |p| == 0 then "/" else Body(p)
  }

  lemma LastSlash(a: string, x: string, b: string, y: string)
    requires a + "/" + x == b + "/" + y
    requires '/' !in x && '/' !in y
    ensures a == b && x == y
  {
    var s := a + "/" + x;
    assert s == b + "/" + y;
    assert s[|a|] == '/' && s[|b|] == '/';
    assert forall i :: |a| < i < |s| ==> s[i] == x[i - |a| - 1];
    assert forall i :: |b| < i < |s| ==> s[i] == y[i - |b| - 1];
    assert |a| == |b|;
    assert a == s[..|a|] == b;
    assert x == s[|a| + 1..] == y;
  }

  /** The text test `ends_with(dir, "/name")` asks for the last component. */
  lemma EndsWithComponent(p: Path, name: string)
    requires Canonical(p) && IsComponent(name)
    ensures EndsWith(Render(p), "/" + name) <==> |p| > 0 && Last(p) == name
  {
    if |p| > 0 {
      var body, suffix := Body(p[..|p| - 1]), "/" + name;
      var s := Render(p);
      assert s == body + "/" + Last(p);
      assert Last(p) in p;
      if EndsWith(s, suffix) {
        var k := |s| - |suffix|;
        assert s == s[..k] + suffix == s[..k] + "/" + name;
        LastSlash(s[..k], name, body, Last(p));
      }
      if Last(p) == name {
        assert s == body + suffix;
        assert s[|s| - |suffix|..] == suffix;
      }
    } else {
      assert |"/" + name| > |Render(p)|;
    }
  }

  /** Different canonical paths render differently, so comparing strings compares paths. */
  lemma {:induction false} BodyIsInjective(p: Path, q: Path)
    requires Canonical(p) && Canonical(q) && Body(p) == Body(q)
    ensures p == q
  {
    if |p| > 0 && |q| > 0 {
      assert Last(p) in p && Last(q) in q;
      LastSlash(Body(p[..|p| - 1]), Last(p), Body(q[..|q| - 1]), Last(q));
      BodyIsInjective(p[..|p| - 1], q[..|q| - 1]);
      assert p == p[..|p| - 1] + [Last(p)] && q == q[..|q| - 1] + [Last(q)];
    }
  }

  lemma RenderIsInjective(p: Path, q: Path)
    requires Canonical(p) && Canonical(q) && Render(p) == Render(q)
    ensures p == q
  {
    RenderedLength(p);
    RenderedLength(q);
    if |p| > 0 && |q| > 0 {
      BodyIsInjective(p, q);
    }
  }

  lemma RenderedLength(p: Path)
    requires Canonical(p)
    ensures |p| > 0 ==> |Render(p)| >= 2
  {
    if |p| > 0 {
      assert Last(p) in p;
    }
  }

  lemma {:induction false} BodyOfPrefix(p: Path, q: Path)
    requires p <= q
    ensures Body(p) <= Body(q)
    ensures p != q ==> |Body(p)| + 1 <= |Body(q)| && Body(q)[|Body(p)|] == '/'
  {
    if |p| < |q| {
      var init := q[..|q| - 1];
      assert p <= init;
      BodyOfPrefix(p, init);
      assert Body(q) == Body(init) + ("/" + Last(q));
      if p == init {
        assert Body(q)[|Body(p)|] == ("/" + Last(q))[0];
      } else {
        assert Body(q)[|Body(p)|] == Body(init)[|Body(p)|];
      }
    } else {
      assert p == q;
    }
  }

  /** Among paths that cover the same path, more components means a longer text. */
  lemma LongerTextMeansDeeper(a: Path, b: Path, p: Path)
    requires Canonical(a) && Canonical(b) && a <= p && b <= p
    ensures |Render(a)| < |Render(b)| <==> |a| < |b|
  {
    CoversAreComparable(a, b, p);
    if |a| < |b| {
      ShorterPrefixShorterText(a, b);
    } else if |b| < |a| {
      CoversAreComparable(b, a, p);
      ShorterPrefixShorterText(b, a);
    } else {
      assert a == b;
    }
  }

  lemma ShorterPrefixShorterText(a: Path, b: Path)
    requires Canonical(b) && a <= b && |a| < |b|
    ensures |Render(a)| < |Render(b)|
  {
    BodyOfPrefix(a, b[..|b| - 1]);
    assert Last(b) in b;
  }
}
