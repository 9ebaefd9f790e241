/**
 Dotted paths: how `diff` of crates/fah-api/src/config_store.rs names the settings that changed.
 */
module ConfigPaths {
  import opened ConfigTree

  /** A key that a dotted path can name: not empty, and without a dot. */
  predicate PlainKey(key: string) {
    key != "" && '.' !in key
  }

  predicate PlainPath(path: Path) {
    forall i | 0 <= i < |path| :: PlainKey(path[i])
  }

  /** Every key the comparison can meet is plain; arrays are compared whole. */
  predicate Plain(j: Json) {
    j.Obj? ==> forall key | key in j.fields :: PlainKey(key) && Plain(j.fields[key])
  }

  /** One level further down, as the code builds it. */
  function Extend(prefix: string, key: string): string {
    if prefix == "" then key else prefix + "." + key
  }

  function Dotted(path: Path): string {
    if path == [] then "" else Extend(Dotted(path[..|path| - 1]), path[|path| - 1])
  }

  lemma DottedExtend(path: Path, key: string)
    ensures Dotted(path + [key]) == Extend(Dotted(path), key)
  {
    var longer := path + [key];
    assert longer[..|longer| - 1] == path;
  }

  lemma {:induction false} DottedIsEmptyIff(path: Path)
    requires PlainPath(path)
    ensures Dotted(path) == "" <==> path == []
  {
    if path != [] {
      DottedIsEmptyIff(path[..|path| - 1]);
    }
  }

  /** A dot found past the end of `a` and its own dot is one of `k`. */
  lemma DotPastEnd(a: string, k: string, at: int)
    ensures |a| < at < |a + "." + k| && (a + "." + k)[at] == '.' ==> '.' in k
  {
    if |a| < at < |a + "." + k| {
      assert (a + "." + k)[at] == k[at - |a| - 1];
    }
  }

  /** A text has one last dot. */
  lemma LastDot(a: string, k: string, b: string, l: string)
    requires '.' !in k && '.' !in l && a + "." + k == b + "." + l
    ensures a == b && k == l
  {
    var text := a + "." + k;
    assert text[|a|] == '.' && text[|b|] == '.';
    DotPastEnd(a, k, |b|);
    DotPastEnd(b, l, |a|);
    assert a == text[..|a|] && b == text[..|b|];
    assert k == text[|a| + 1..] && l == text[|b| + 1..];
  }

  lemma DotIff(path: Path)
    requires PlainPath(path)
    ensures '.' in Dotted(path) <==> |path| >= 2
    ensures |path| == 1 ==> Dotted(path) == path[0]
  {
    if path != [] {
      var front := path[..|path| - 1];
      DottedIsEmptyIff(front);
      assert |path| >= 2 ==> Dotted(path)[|Dotted(front)|] == '.';
    }
  }

  lemma {:induction false} DottedIsInjective(p: Path, q: Path)
    requires PlainPath(p) && PlainPath(q) && Dotted(p) == Dotted(q)
    ensures p == q
    decreases |p|
  {
    DottedIsEmptyIff(p);
    DottedIsEmptyIff(q);
    DotIff(p);
    DotIff(q);
    if |p| >= 2 {
      var p', k := p[..|p| - 1], p[|p| - 1];
      var q', l := q[..|q| - 1], q[|q| - 1];
      DottedIsEmptyIff(p');
      DottedIsEmptyIff(q');
      LastDot(Dotted(p'), k, Dotted(q'), l);
      DottedIsInjective(p', q');
      assert p == p' + [k] && q == q' + [l];
    }
  }

  predicate StartsWith(text: string, prefix: string) {
    |prefix| <= |text| && text[..|prefix|] == prefix
  }

  /** The test on texts that stands for "at or below" on paths. */
  predicate Under(text: string, above: string) {
    text == above || StartsWith(text, above + ".")
  }

  lemma {:induction false} BelowStartsWith(above: Path, path: Path)
    requires PlainPath(path) && above != [] && above < path
    ensures StartsWith(Dotted(path), Dotted(above) + ".")
    decreases |path|
  {
    var front := path[..|path| - 1];
    DottedIsEmptyIff(front);
    if front != above {
      assert above < front;
      BelowStartsWith(above, front);
    }
  }

  lemma {:induction false} StartsWithBelow(above: Path, path: Path)
    requires PlainPath(above) && PlainPath(path) && StartsWith(Dotted(path), Dotted(above) + ".")
    ensures above < path
    decreases |path|
  {
    var dot := |Dotted(above)|;
    assert Dotted(path)[dot] == (Dotted(above) + ".")[dot] == '.';
    DotIff(path);
    var front, key := path[..|path| - 1], path[|path| - 1];
    DottedIsEmptyIff(front);
    var text := Dotted(front);
    assert Dotted(path) == text + "." + key;
    DotPastEnd(text, key, dot);
    if dot == |text| {
      assert Dotted(above) == Dotted(path)[..dot + 1][..dot] == text;
      DottedIsInjective(above, front);
    } else {
      assert text[..dot + 1] == Dotted(path)[..dot + 1];
      StartsWithBelow(above, front);
    }
  }

  /** On plain paths, the textual test is exactly "at or below". */
  lemma UnderIff(above: Path, path: Path)
    requires PlainPath(above) && PlainPath(path) && above != []
    ensures Under(Dotted(path), Dotted(above)) <==> above <= path
  {
    hide Dotted, StartsWith, PlainPath;
    if above <= path {
      if |above| < |path| {
        BelowStartsWith(above, path);
      } else {
        assert above == path;
      }
    }
    if StartsWith(Dotted(path), Dotted(above) + ".") {
      StartsWithBelow(above, path);
    }
    if Dotted(path) == Dotted(above) {
      DottedIsInjective(path, above);
    }
  }

  lemma {:induction false} DifferencesArePlain(before: Json, after: Json, path: Path)
    requires Plain(before) && Plain(after) && DiffersAt(before, after, path)
    ensures PlainPath(path)
    decreases |path|
  {
    if path != [] {
      DifferencesArePlain(Child(before, path[0]), Child(after, path[0]), path[1..]);
      assert path == [path[0]] + path[1..];
    }
  }
}
