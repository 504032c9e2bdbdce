/**
 * The two string functions of the assembly: `classToName` (the short name of
 * a fully-qualified class) and `boundedContext` (the bounded-context name a
 * class name encodes, found with a fixed regular expression).
 */
module Names {
  import opened Facts

  const Backslash: char := '\\'

  /** PHP `explode` with a one-character separator: the pieces between separators. */
  function Explode(s: string, sep: char): (parts: seq<string>)
    ensures |parts| >= 1
    ensures forall i :: 0 <= i < |parts| ==> sep !in parts[i]
  {
    if s == [] then [""]
    else
      var n := |s| - 1;
      var prefix := Explode(s[..n], sep);
      if s[n] == sep then prefix + [""]
      else prefix[..|prefix| - 1] + [prefix[|prefix| - 1] + [s[n]]]
  }

  /** PHP `implode` with a one-character glue. */
  function Implode(parts: seq<string>, sep: char): string
    requires |parts| >= 1
  {
    if |parts| == 1 then parts[0]
    else Implode(parts[..|parts| - 1], sep) + [sep] + parts[|parts| - 1]
  }

  /** Exploding and gluing back gives the original string. */
  lemma {:induction false} ExplodeRoundTrip(s: string, sep: char)
    ensures Implode(Explode(s, sep), sep) == s
  {
    if s != [] {
      var n := |s| - 1;
      var prefix := Explode(s[..n], sep);
      ExplodeRoundTrip(s[..n], sep);
      assert s == s[..n] + [s[n]];
      var parts := Explode(s, sep);
      if s[n] == sep {
        assert parts[..|parts| - 1] == prefix;
      } else {
        var m := |prefix| - 1;
        assert parts[..|parts| - 1] == prefix[..m];
        if m > 0 {
          assert prefix == prefix[..m] + [prefix[m]];
          assert Implode(prefix, sep) == Implode(prefix[..m], sep) + [sep] + prefix[m];
        }
      }
    }
  }

  /** `end(explode('\\', $class))`: the text after the last backslash. */
  function ClassToName(className: string): (name: string)
    ensures |name| <= |className| && name == className[|className| - |name|..]
    ensures Backslash !in name
    ensures Backslash !in className ==> name == className
    ensures name != className ==> className[|className| - |name| - 1] == Backslash
  {
    var parts := Explode(className, Backslash);
    LastPieceIsSuffix(className, Backslash);
    parts[|parts| - 1]
  }

  lemma {:induction false} LastPieceIsSuffix(s: string, sep: char)
    ensures SuffixPiece(s, Explode(s, sep)[|Explode(s, sep)| - 1], sep)
  {
    if s != [] {
      var n := |s| - 1;
      var p := s[..n];
      LastPieceIsSuffix(p, sep);
      var prefix := Explode(p, sep);
      assert s == p + [s[n]];
      if s[n] == sep {
        assert Explode(s, sep) == prefix + [""];
      } else {
        var pl := prefix[|prefix| - 1];
        assert Explode(s, sep) == prefix[..|prefix| - 1] + [pl + [s[n]]];
        LastPieceGrows(p, s[n], sep, pl);
      }
    }
  }

  /** `last` is a suffix of `s` preceded by `sep` unless it is all of `s`, which it
      is when `sep` does not occur. */
  predicate SuffixPiece(s: string, last: string, sep: char) {
    |last| <= |s| && last == s[|s| - |last|..] &&
    (sep !in s ==> last == s) &&
    (last != s ==> s[|s| - |last| - 1] == sep)
  }

  /** A last character other than the separator extends the last piece. */
  lemma LastPieceGrows(p: string, c: char, sep: char, pl: string)
    requires c != sep && SuffixPiece(p, pl, sep)
    ensures SuffixPiece(p + [c], pl + [c], sep)
  {
    var s, last := p + [c], pl + [c];
    assert s[|s| - |last|..] == p[|p| - |pl|..] + [c];
    if last != s {
      assert pl != p;
      assert s[|s| - |last| - 1] == p[|p| - |pl| - 1];
    }
  }

  /** The short name of `prefix\n`, where `n` holds no backslash, is `n`. */
  lemma ClassToNameLast(prefix: string, n: string)
    requires Backslash !in n
    ensures ClassToName(prefix + [Backslash] + n) == n
  {
    var s := prefix + [Backslash] + n;
    assert s[|prefix|] == Backslash && s[|prefix| + 1..] == n;
  }

  // `boundedContext`: preg_match('#\\([^/]+)\\(Domain|Infrastructure|Application)\\#', $class)
  // returns the first capture group of the leftmost match. PCRE starts at the
  // leftmost position where the pattern matches; there the greedy `[^/]+` takes
  // the longest group that the rest of the pattern still accepts.

  /** `w` occurs in `s` at position `q`. */
  predicate OccursAt(s: string, q: nat, w: string) {
    q + |w| <= |s| && s[q..q + |w|] == w
  }

  /** One of `\Domain\`, `\Infrastructure\`, `\Application\` occurs at `q`. */
  predicate LayerMarkerAt(s: string, q: nat) {
    OccursAt(s, q, "\\Domain\\") || OccursAt(s, q, "\\Infrastructure\\") || OccursAt(s, q, "\\Application\\")
  }

  /** The pattern matches with its opening backslash at `p` and the marker at `q`;
      the captured group is `s[p + 1..q]`, one or more characters other than `/`. */
  predicate MatchAt(s: string, p: nat, q: nat) {
    p + 2 <= q <= |s| && s[p] == Backslash && LayerMarkerAt(s, q) && '/' !in s[p + 1..q]
  }

  /** The largest marker position `q' <= q` that completes a match starting at `p`. */
  function GroupEnd(s: string, p: nat, q: nat): (r: Option<nat>)
    ensures r.Some? ==> p + 2 <= r.value <= q
    decreases q
  {
    if q < p + 2 then None
    else if MatchAt(s, p, q) then Some(q)
    else GroupEnd(s, p, q - 1)
  }

  /** The marker found is the last one up to `q` that completes the match, and none
      is found only when there is none. */
  lemma {:induction false} GroupEndSpec(s: string, p: nat, q: nat)
    ensures GroupEnd(s, p, q).Some? ==> MatchAt(s, p, GroupEnd(s, p, q).value) && GroupEnd(s, p, q).value <= q
    ensures GroupEnd(s, p, q).Some? ==> forall q': nat :: GroupEnd(s, p, q).value < q' <= q ==> !MatchAt(s, p, q')
    ensures GroupEnd(s, p, q).None? ==> forall q': nat :: q' <= q ==> !MatchAt(s, p, q')
    decreases q
  {
    if q >= p + 2 && !MatchAt(s, p, q) {
      GroupEndSpec(s, p, q - 1);
    }
  }

  /** `(p, q)` is the match PCRE reports when it starts searching at `from`:
      the leftmost start, and there the last marker. */
  ghost predicate Reported(s: string, from: nat, p: nat, q: nat) {
    from <= p && MatchAt(s, p, q) &&
    forall p': nat, q': nat :: from <= p' && MatchAt(s, p', q') ==> p < p' || (p == p' && q' <= q)
  }

  /** The group of the leftmost match starting at or after `p`. */
  function MatchFrom(s: string, p: nat): Option<string>
    decreases |s| - p
  {
    if p >= |s| then None
    else if s[p] == Backslash && GroupEnd(s, p, |s|).Some? then Some(s[p + 1..GroupEnd(s, p, |s|).value])
    else MatchFrom(s, p + 1)
  }

  /** The search from `p` finds nothing exactly when no match starts at or after `p`,
      and otherwise reports the group of the leftmost match, taken to its last marker. */
  lemma {:induction false} MatchFromSpec(s: string, p: nat)
    ensures MatchFrom(s, p).None? ==> forall p': nat, q': nat :: p <= p' ==> !MatchAt(s, p', q')
    ensures MatchFrom(s, p).Some? ==>
      exists p': nat, q': nat :: Reported(s, p, p', q') && MatchFrom(s, p).value == s[p' + 1..q']
    decreases |s| - p
  {
    if p < |s| {
      if s[p] == Backslash && GroupEnd(s, p, |s|).Some? {
        ReportedHere(s, p, GroupEnd(s, p, |s|).value);
      } else {
        GroupEndSpec(s, p, |s|);
        MatchFromSpec(s, p + 1);
        ReportedLater(s, p, p + 1, MatchFrom(s, p + 1));
      }
    }
  }

  /** When no match starts at `p`, searching from `p` reports what searching from `p + 1` does. */
  lemma ReportedLater(s: string, p: nat, next: nat, r: Option<string>)
    requires next == p + 1
    requires forall q: nat :: !MatchAt(s, p, q)
    requires r.Some? ==> exists p': nat, q': nat :: Reported(s, next, p', q') && r.value == s[p' + 1..q']
    ensures r.Some? ==> exists p': nat, q': nat :: Reported(s, p, p', q') && r.value == s[p' + 1..q']
  {
    if r.Some? {
      var a: nat, b: nat :| Reported(s, next, a, b) && r.value == s[a + 1..b];
      forall p'': nat, q'': nat | p <= p'' && MatchAt(s, p'', q'') ensures a < p'' || (a == p'' && q'' <= b) {
        assert p'' != p;
      }
      assert Reported(s, p, a, b);
    }
  }

  /** A match at `p` that ends at the last marker is the one reported from `p`. */
  lemma ReportedHere(s: string, p: nat, q: nat)
    requires GroupEnd(s, p, |s|) == Some(q)
    ensures Reported(s, p, p, q)
  {
    GroupEndSpec(s, p, |s|);
    forall p': nat, q': nat | p <= p' && MatchAt(s, p', q') ensures p < p' || (p == p' && q' <= q) {
    }
  }

  /** `boundedContext($class)`: the name between the first backslash that starts a
      match and the last layer marker after it, or null. */
  function BoundedContextOf(className: string): Option<string> {
    MatchFrom(className, 0)
  }

  /** `boundedContext` is null exactly when the pattern does not match, and otherwise
      the group of the match PCRE reports. */
  lemma BoundedContextOfSpec(className: string)
    ensures BoundedContextOf(className).Some? <==> exists p: nat, q: nat :: MatchAt(className, p, q)
    ensures BoundedContextOf(className).Some? ==>
      exists p: nat, q: nat :: Reported(className, 0, p, q) && BoundedContextOf(className).value == className[p + 1..q]
  {
    MatchFromSpec(className, 0);
  }

  /** The layer names the pattern accepts. */
  predicate IsLayer(layer: string) {
    layer == "Domain" || layer == "Infrastructure" || layer == "Application"
  }

  /** A pattern match is determined by where the search starts. */
  lemma ReportedUnique(s: string, from: nat, p1: nat, q1: nat, p2: nat, q2: nat)
    requires Reported(s, from, p1, q1) && Reported(s, from, p2, q2)
    ensures p1 == p2 && q1 == q2
  {
    assert p1 < p2 || (p1 == p2 && q2 <= q1);
    assert p2 < p1 || (p2 == p1 && q1 <= q2);
  }

  /** A layer marker occurring at `q` ends with a backslash somewhere after `q`. */
  lemma MarkerEnds(s: string, q: nat) returns (e: nat)
    requires LayerMarkerAt(s, q)
    ensures q + 7 <= e < |s| && s[q] == Backslash && s[e] == Backslash
  {
    if OccursAt(s, q, "\\Domain\\") {
      e := q + 7;
      assert s[q..q + 8][7] == s[e] && s[q..q + 8][0] == s[q];
    } else if OccursAt(s, q, "\\Infrastructure\\") {
      e := q + 15;
      assert s[q..q + 16][15] == s[e] && s[q..q + 16][0] == s[q];
    } else {
      e := q + 12;
      assert s[q..q + 13][12] == s[e] && s[q..q + 13][0] == s[q];
    }
  }

  /** Where the backslashes of `a\c\<layer>\r` can be, given that `a`, `layer`
      and `r` hold none. */
  lemma LayeredBackslash(a: string, c: string, layer: string, r: string, i: nat)
    requires Backslash !in a && Backslash !in layer && Backslash !in r
    requires i < |a + [Backslash] + c + [Backslash] + layer + [Backslash] + r|
    requires (a + [Backslash] + c + [Backslash] + layer + [Backslash] + r)[i] == Backslash
    ensures |a| <= i
    ensures i > |a| + 1 + |c| ==> i == |a| + |c| + |layer| + 2
  {
  }

  /** The match in `a\c\<layer>\r` opens after `a` and closes at the marker. */
  lemma LayeredReported(a: string, c: string, layer: string, r: string)
    requires IsLayer(layer)
    requires Backslash !in a && Backslash !in layer && Backslash !in r
    requires c != [] && '/' !in c
    ensures var s := a + [Backslash] + c + [Backslash] + layer + [Backslash] + r;
      Reported(s, 0, |a|, |a| + 1 + |c|) && s[|a| + 1..|a| + 1 + |c|] == c
  {
    var s := a + [Backslash] + c + [Backslash] + layer + [Backslash] + r;
    var p, q := |a|, |a| + 1 + |c|;
    LayeredMatch(a, c, layer, r);
    forall p': nat, q': nat | MatchAt(s, p', q') ensures p < p' || (p == p' && q' <= q) {
      LayeredOnlyMatch(a, c, layer, r, p', q');
    }
  }

  /** The pattern matches `a\c\<layer>\r` with the group `c`. */
  lemma LayeredMatch(a: string, c: string, layer: string, r: string)
    requires IsLayer(layer)
    requires c != [] && '/' !in c
    ensures var s := a + [Backslash] + c + [Backslash] + layer + [Backslash] + r;
      MatchAt(s, |a|, |a| + 1 + |c|) && s[|a| + 1..|a| + 1 + |c|] == c
  {
    var s := a + [Backslash] + c + [Backslash] + layer + [Backslash] + r;
    var p, q := |a|, |a| + 1 + |c|;
    var u := a + [Backslash] + c;
    LayerAfter(u, layer, r);
    assert s[..|u|] == u;
    assert s[p + 1..q] == u[p + 1..q];
  }

  /** A layer marker follows `x` in `x\<layer>\r`. */
  lemma LayerAfter(x: string, layer: string, r: string)
    requires IsLayer(layer)
    ensures LayerMarkerAt(x + [Backslash] + layer + [Backslash] + r, |x|)
  {
    var s := x + [Backslash] + layer + [Backslash] + r;
    var w := [Backslash] + layer + [Backslash];
    assert s[|x|..|x| + |w|] == w;
    assert w == "\\Domain\\" || w == "\\Infrastructure\\" || w == "\\Application\\";
  }

  /** Any match in `a\c\<layer>\r` opens at the backslash after `a` and closes at
      the marker or before it. */
  lemma LayeredOnlyMatch(a: string, c: string, layer: string, r: string, p': nat, q': nat)
    requires Backslash !in a && Backslash !in layer && Backslash !in r
    requires MatchAt(a + [Backslash] + c + [Backslash] + layer + [Backslash] + r, p', q')
    ensures |a| < p' || (|a| == p' && q' <= |a| + 1 + |c|)
  {
    var s := a + [Backslash] + c + [Backslash] + layer + [Backslash] + r;
    var e := MarkerEnds(s, q');
    LayeredBackslash(a, c, layer, r, p');
    LayeredBackslash(a, c, layer, r, q');
    LayeredBackslash(a, c, layer, r, e);
  }

  /** `boundedContext` of `a\c\<layer>\r`, where `a` is one segment and `r` holds no
      further backslash, is `c`: the group runs from the first backslash to the
      marker, whatever backslashes `c` itself contains. */
  lemma BoundedContextOfLayered(a: string, c: string, layer: string, r: string)
    requires IsLayer(layer)
    requires Backslash !in a && Backslash !in layer && Backslash !in r
    requires c != [] && '/' !in c
    ensures BoundedContextOf(a + [Backslash] + c + [Backslash] + layer + [Backslash] + r) == Some(c)
  {
    var s := a + [Backslash] + c + [Backslash] + layer + [Backslash] + r;
    LayeredReported(a, c, layer, r);
    BoundedContextOfSpec(s);
    var r' := BoundedContextOf(s);
    var p2: nat, q2: nat :| Reported(s, 0, p2, q2) && r'.value == s[p2 + 1..q2];
    ReportedUnique(s, 0, |a|, |a| + 1 + |c|, p2, q2);
  }

  /** A class whose only backslashes are the ones around its layer has no
      bounded context: the group before the marker would have to start with a
      backslash, and there is none before the first segment. */
  lemma BoundedContextOfFirstSegment(c: string, layer: string, r: string)
    requires IsLayer(layer)
    requires Backslash !in c && Backslash !in layer && Backslash !in r
    ensures BoundedContextOf(c + [Backslash] + layer + [Backslash] + r) == None
  {
    var s := c + [Backslash] + layer + [Backslash] + r;
    BoundedContextOfSpec(s);
    forall p': nat, q': nat | MatchAt(s, p', q') ensures false {
      var e := MarkerEnds(s, q');
      FirstSegmentBackslash(c, layer, r, p');
      FirstSegmentBackslash(c, layer, r, q');
      FirstSegmentBackslash(c, layer, r, e);
    }
  }

  /** Where the backslashes of `c\<layer>\r` can be, given that `c`, `layer` and
      `r` hold none. */
  lemma FirstSegmentBackslash(c: string, layer: string, r: string, i: nat)
    requires Backslash !in c && Backslash !in layer && Backslash !in r
    requires i < |c + [Backslash] + layer + [Backslash] + r|
    requires (c + [Backslash] + layer + [Backslash] + r)[i] == Backslash
    ensures i == |c| || i == |c| + |layer| + 1
  {
  }
}
