/** The credential redaction applied to the copy of the options that
    listeners see (src/Getty.php line 125): `preg_replace` of the pattern
    `Authorization: Basic (.*)` by `Authorization: Basic _removed_`. The
    pattern is case-sensitive; every non-overlapping occurrence is replaced,
    from the left, and the greedy `.*` runs to the next line feed, which `.`
    does not match. */
module Redaction {
  import opened PhpValues

  const Marker: string := "Authorization: Basic "
  const Replacement: string := "Authorization: Basic _removed_"

  predicate OccursAt(s: string, i: nat) {
    i + |Marker| <= |s| && s[i..i + |Marker|] == Marker
  }

  /** The leftmost occurrence of the marker at or after `from`. */
  function FirstOccurrence(s: string, from: nat): (r: Option<nat>)
    ensures r.Some? ==> from <= r.value && OccursAt(s, r.value)
                        && forall j | from <= j < r.value :: !OccursAt(s, j)
    ensures r.None? ==> forall j :: from <= j ==> !OccursAt(s, j)
    decreases |s| - from
  {
    if from + |Marker| > |s| then None
    else if OccursAt(s, from) then Some(from)
    else FirstOccurrence(s, from + 1)
  }

  /** What is left once `.*` has consumed everything up to the next line
      feed: the suffix starting at that line feed, or nothing. */
  function FromLineBreak(t: string): (r: string)
    ensures |r| <= |t| && r == t[|t| - |r|..]
    ensures r == [] || r[0] == '\n'
    ensures forall m | 0 <= m < |t| - |r| :: t[m] != '\n'
    decreases |t|
  {
    if t == [] || t[0] == '\n' then t else FromLineBreak(t[1..])
  }

  /** One header element after the rewrite. `RedactSingleLine` and
      `RedactAcrossLineFeed` together fix the result on every string. */
  function Redact(s: string): (r: string)
    ensures FirstOccurrence(s, 0).None? ==> r == s
    ensures FirstOccurrence(s, 0).Some? ==>
              var k := FirstOccurrence(s, 0).value;
              k + |Replacement| <= |r| && r[..k] == s[..k] && r[k..k + |Replacement|] == Replacement
    decreases |s|
  {
    match FirstOccurrence(s, 0)
    case None => s
    case Some(k) =>
      var rest := Redact(FromLineBreak(s[k + |Marker|..]));
      Slices(s[..k], Replacement, rest);
      s[..k] + Replacement + rest
  }

  lemma {:induction false} Slices(a: string, b: string, c: string)
    ensures (a + b + c)[..|a|] == a && (a + b + c)[|a|..|a| + |b|] == b
  {
  }

  /** The `foreach (... as &$header)` rewrite of a header list. */
  function RedactLines(lines: seq<string>): (r: seq<string>)
    ensures |r| == |lines|
    ensures forall i | 0 <= i < |lines| :: r[i] == Redact(lines[i])
  {
    seq(|lines|, i requires 0 <= i < |lines| => Redact(lines[i]))
  }

  lemma {:induction false} FromLineBreakOfSingleLine(t: string)
    requires SingleLine(t)
    ensures FromLineBreak(t) == []
    decreases |t|
  {
    if t != [] {
      assert t[0] != '\n';
      FromLineBreakOfSingleLine(t[1..]);
    }
  }

  /** On a line without line feeds: a line without the marker is left as
      it is, and a line with it becomes the text before its first
      occurrence followed by the replacement. */
  lemma {:induction false} RedactSingleLine(s: string)
    requires SingleLine(s)
    ensures FirstOccurrence(s, 0).None? ==> Redact(s) == s
    ensures FirstOccurrence(s, 0).Some? ==>
              Redact(s) == s[..FirstOccurrence(s, 0).value] + Replacement
  {
    match FirstOccurrence(s, 0)
    case None =>
    case Some(k) =>
      var t := s[k + |Marker|..];
      assert SingleLine(t) by {
        forall m | 0 <= m < |t| ensures t[m] != '\n' {
          assert t[m] == s[k + |Marker| + m];
        }
      }
      FromLineBreakOfSingleLine(t);
      assert Redact([]) == [];
  }

  /** Two strings that agree up to the end of the first occurrence in one
      of them have that same first occurrence. */
  lemma {:induction false} SameFirstOccurrence(s: string, t: string, k: nat)
    requires FirstOccurrence(s, 0) == Some(k)
    requires k + |Marker| <= |t| && t[..k + |Marker|] == s[..k + |Marker|]
    ensures FirstOccurrence(t, 0) == Some(k)
  {
    assert t[k..k + |Marker|] == t[..k + |Marker|][k..] == s[..k + |Marker|][k..] == s[k..k + |Marker|];
    assert OccursAt(t, k);
    forall j | 0 <= j < k ensures !OccursAt(t, j) {
      assert !OccursAt(s, j);
      assert t[j..j + |Marker|] == t[..k + |Marker|][j..j + |Marker|];
      assert s[j..j + |Marker|] == s[..k + |Marker|][j..j + |Marker|];
    }
    var r := FirstOccurrence(t, 0);
    assert r.Some?;
    assert r.value <= k;
  }

  lemma {:induction false} FromLineBreakSkips(u: string, x: string)
    requires SingleLine(u)
    ensures FromLineBreak(u + x) == FromLineBreak(x)
    decreases |u|
  {
    if u == [] {
      assert u + x == x;
    } else {
      assert (u + x)[0] == u[0] && u[0] != '\n';
      assert (u + x)[1..] == u[1..] + x;
      FromLineBreakSkips(u[1..], x);
    }
  }

  /** A string that is empty or starts a new line still does after the
      rewrite: the marker cannot start with a line feed. */
  lemma {:induction false} RedactKeepsLineStart(t: string)
    requires t == [] || t[0] == '\n'
    ensures Redact(t) == [] || Redact(t)[0] == '\n'
  {
    match FirstOccurrence(t, 0)
    case None =>
    case Some(k) =>
      if k == 0 {
        assert t[0] == t[..|Marker|][0] == Marker[0];
      }
  }

  /** Rewriting a line whose first occurrence is followed by the
      replacement text and then by a new line (or nothing). */
  lemma {:induction false} RedactAfterReplacement(pre: string, tail: string)
    requires FirstOccurrence(pre + Replacement + tail, 0) == Some(|pre|)
    requires tail == [] || tail[0] == '\n'
    ensures Redact(pre + Replacement + tail) == pre + Replacement + Redact(tail)
  {
    var r := pre + Replacement + tail;
    AfterReplacementMarker(r, pre, tail);
    RedactAt(r, |pre|, pre, r[|pre| + |Marker|..]);
  }

  /** What `.*` leaves after the marker inside the replacement text: the
      `_removed_` token is skipped up to the next line feed. */
  lemma {:induction false} AfterReplacementMarker(r: string, pre: string, tail: string)
    requires r == pre + Replacement + tail
    requires tail == [] || tail[0] == '\n'
    ensures r[..|pre|] == pre
    ensures FromLineBreak(r[|pre| + |Marker|..]) == tail
  {
    var removed := "_removed_";
    ReplacementParts(removed);
    SliceAround(r, pre, Marker, removed, tail);
    FromLineBreakSkips(removed, tail);
  }

  /** The replacement is the marker followed by a token on the same line. */
  lemma {:induction false} ReplacementParts(removed: string)
    requires removed == "_removed_"
    ensures Replacement == Marker + removed && SingleLine(removed)
  {
  }

  lemma {:induction false} SliceAround(r: string, pre: string, m: string, x: string, tail: string)
    requires r == pre + (m + x) + tail
    ensures r[..|pre|] == pre && r[|pre| + |m|..] == x + tail
  {
  }

  /** The rewrite leaves everything up to the end of the first marker. */
  lemma {:induction false} RedactKeepsPrefix(s: string, k: nat, tail: string)
    requires FirstOccurrence(s, 0) == Some(k)
    ensures (s[..k] + Replacement + tail)[..k + |Marker|] == s[..k + |Marker|]
  {
    var r := s[..k] + Replacement + tail;
    assert Replacement[..|Marker|] == Marker;
    assert s[k..k + |Marker|] == Marker;
    assert r[..k + |Marker|] == s[..k] + Marker;
    assert s[..k + |Marker|] == s[..k] + s[k..k + |Marker|];
  }

  /** Rewriting an already rewritten line changes nothing more. */
  lemma {:induction false} RedactIdempotent(s: string)
    ensures Redact(Redact(s)) == Redact(s)
    decreases |s|
  {
    match FirstOccurrence(s, 0)
    case None =>
    case Some(k) =>
      var rest := FromLineBreak(s[k + |Marker|..]);
      var tail := Redact(rest);
      var r := s[..k] + Replacement + tail;
      assert Redact(s) == r;
      RedactKeepsPrefix(s, k, tail);
      SameFirstOccurrence(s, r, k);
      RedactKeepsLineStart(rest);
      RedactAfterReplacement(s[..k], tail);
      RedactIdempotent(rest);
  }

  /** A marker never spans a line feed, so past `p + "\n"` the occurrences
      are those of what follows, shifted. */
  lemma {:induction false} OccursAfterLineFeed(p: string, b: string, j: nat)
    ensures OccursAt(p + "\n" + b, |p| + 1 + j) <==> OccursAt(b, j)
  {
    var s := p + "\n" + b;
    if j + |Marker| <= |b| {
      assert s[|p| + 1 + j..|p| + 1 + j + |Marker|] == b[j..j + |Marker|];
    }
  }

  lemma {:induction false} NoOccurrenceUpToLineFeed(p: string, b: string, j: nat)
    requires FirstOccurrence(p, 0).None?
    requires j <= |p|
    ensures !OccursAt(p + "\n" + b, j)
  {
    var s := p + "\n" + b;
    if j + |Marker| <= |p| {
      assert s[j..j + |Marker|] == p[j..j + |Marker|];
      assert !OccursAt(p, j);
    } else if j + |Marker| <= |s| {
      assert s[j..j + |Marker|][|p| - j] == s[|p|] == '\n';
      assert Marker[|p| - j] != '\n';
    }
  }

  /** The leftmost occurrence is pinned down by its defining property. */
  lemma {:induction false} FirstOccurrenceIs(s: string, k: nat)
    requires OccursAt(s, k) && forall i | 0 <= i < k :: !OccursAt(s, i)
    ensures FirstOccurrence(s, 0) == Some(k)
  {
  }

  /** After a line holding no marker, the first occurrence is the first
      one of the next line, shifted past the line feed. */
  lemma {:induction false} FirstOccurrenceAfterLineFeed(p: string, b: string)
    requires FirstOccurrence(p, 0).None?
    ensures FirstOccurrence(b, 0).None? ==> FirstOccurrence(p + "\n" + b, 0).None?
    ensures FirstOccurrence(b, 0).Some? ==>
              FirstOccurrence(p + "\n" + b, 0) == Some(|p| + 1 + FirstOccurrence(b, 0).value)
  {
    match FirstOccurrence(b, 0)
    case None => NoneAfterLineFeed(p + "\n" + b, p, b);
    case Some(k) => SomeAfterLineFeed(p + "\n" + b, p, b, k);
  }

  lemma {:induction false} NoneAfterLineFeed(s: string, p: string, b: string)
    requires s == p + "\n" + b
    requires FirstOccurrence(p, 0).None? && FirstOccurrence(b, 0).None?
    ensures FirstOccurrence(s, 0).None?
  {
    forall i | 0 <= i ensures !OccursAt(s, i) {
      if i <= |p| {
        NoOccurrenceUpToLineFeed(p, b, i);
      } else {
        OccursAfterLineFeed(p, b, i - |p| - 1);
      }
    }
  }

  lemma {:induction false} SomeAfterLineFeed(s: string, p: string, b: string, k: nat)
    requires s == p + "\n" + b
    requires FirstOccurrence(p, 0).None? && FirstOccurrence(b, 0) == Some(k)
    ensures FirstOccurrence(s, 0) == Some(|p| + 1 + k)
  {
    forall i | 0 <= i < |p| + 1 + k ensures !OccursAt(s, i) {
      if i <= |p| {
        NoOccurrenceUpToLineFeed(p, b, i);
      } else {
        OccursAfterLineFeed(p, b, i - |p| - 1);
      }
    }
    OccursAfterLineFeed(p, b, k);
    FirstOccurrenceIs(s, |p| + 1 + k);
  }

  /** One step of the rewrite at the first occurrence `k`: the text
      before it, the replacement, then the rewrite of what `.*` leaves. */
  lemma {:induction false} RedactAt(s: string, k: nat, pre: string, rest: string)
    requires FirstOccurrence(s, 0) == Some(k)
    requires pre == s[..k] && rest == s[k + |Marker|..]
    ensures Redact(s) == pre + Replacement + Redact(FromLineBreak(rest))
  {
  }

  lemma {:induction false} SplitAfterLineFeed(s: string, p: string, b: string, k: nat)
    requires s == p + "\n" + b && k + |Marker| <= |b|
    ensures s[..|p| + 1 + k] == p + "\n" + b[..k]
    ensures s[|p| + 1 + k + |Marker|..] == b[k + |Marker|..]
  {
    assert s[..|p| + 1 + k] == p + "\n" + b[..k];
  }

  lemma {:induction false} RegroupAfterLineFeed(p: string, pre: string, t: string)
    ensures (p + "\n" + pre) + Replacement + t == p + "\n" + (pre + Replacement + t)
  {
  }

  /** A line without the marker passes through, and the rewrite goes on
      after its line feed. */
  lemma {:induction false} RedactAfterCleanLine(p: string, b: string)
    requires FirstOccurrence(p, 0).None?
    ensures Redact(p + "\n" + b) == p + "\n" + Redact(b)
  {
    FirstOccurrenceAfterLineFeed(p, b);
    match FirstOccurrence(b, 0)
    case None =>
    case Some(k) =>
      MarkerAfterCleanLine(p + "\n" + b, p, b, k);
  }

  lemma {:induction false} MarkerAfterCleanLine(s: string, p: string, b: string, k: nat)
    requires s == p + "\n" + b
    requires FirstOccurrence(b, 0) == Some(k) && FirstOccurrence(s, 0) == Some(|p| + 1 + k)
    ensures Redact(s) == p + "\n" + Redact(b)
  {
    var pre := b[..k];
    var rest := b[k + |Marker|..];
    SplitAfterLineFeed(s, p, b, k);
    RedactAt(s, |p| + 1 + k, p + "\n" + pre, rest);
    RedactAt(b, k, pre, rest);
    RegroupAfterLineFeed(p, pre, Redact(FromLineBreak(rest)));
  }

  lemma {:induction false} SingleLineSuffix(a: string, n: nat)
    requires SingleLine(a) && n <= |a|
    ensures SingleLine(a[n..])
  {
    forall m | 0 <= m < |a| - n ensures a[n..][m] != '\n' {
      assert a[n..][m] == a[n + m];
    }
  }

  lemma {:induction false} DropFromConcat(a: string, b: string, n: nat)
    requires n <= |a|
    ensures (a + "\n" + b)[n..] == a[n..] + ("\n" + b)
  {
  }

  lemma {:induction false} SkipToLineFeed(s: string, a: string, b: string, n: nat)
    requires s == a + "\n" + b && SingleLine(a) && n <= |a|
    ensures FromLineBreak(s[n..]) == FromLineBreak("\n" + b)
  {
    DropFromConcat(a, b, n);
    SingleLineSuffix(a, n);
    FromLineBreakSkips(a[n..], "\n" + b);
  }

  lemma {:induction false} AtLineFeed(b: string, e: string)
    requires e == []
    ensures FromLineBreak("\n" + b) == e + "\n" + b
  {
    assert e + "\n" + b == "\n" + b;
  }

  /** Once the first marker of a line is found, `.*` runs to the line feed
      that ends the line (`n` is where the marker ends). */
  lemma {:induction false} RestOfLine(s: string, a: string, b: string, n: nat, e: string)
    requires s == a + "\n" + b && SingleLine(a) && n <= |a| && e == []
    ensures FromLineBreak(s[n..]) == e + "\n" + b
  {
    SkipToLineFeed(s, a, b, n);
    AtLineFeed(b, e);
  }

  lemma {:induction false} JoinAfterReplacement(rs: string, ra: string, pre: string, rest: string, rb: string, e: string)
    requires e == [] && rs == pre + Replacement + rest && ra == pre + Replacement && rest == e + "\n" + rb
    ensures rs == ra + "\n" + rb
  {
  }

  /** `preg_replace` replaces every match, line by line: the rewrite of a
      line, a line feed and the rest is the rewrite of the line, the line
      feed and the rewrite of the rest. With `RedactSingleLine` this fixes
      the rewrite of every string. */
  lemma {:induction false} RedactAcrossLineFeed(a: string, b: string)
    requires SingleLine(a)
    ensures Redact(a + "\n" + b) == Redact(a) + "\n" + Redact(b)
  {
    match FirstOccurrence(a, 0)
    case None =>
      RedactSingleLine(a);
      RedactAfterCleanLine(a, b);
    case Some(k) =>
      MarkedLineThenRest(a + "\n" + b, a, b, k);
  }

  lemma {:induction false} PrefixOfJoined(s: string, a: string, b: string, n: nat)
    requires s == a + "\n" + b && n <= |a|
    ensures s[..n] == a[..n]
  {
  }

  /** The first line holds the marker: its rewrite ends at the line feed,
      and the rewrite of what follows starts there. */
  lemma {:induction false} MarkedLineThenRest(s: string, a: string, b: string, k: nat)
    requires s == a + "\n" + b && SingleLine(a) && FirstOccurrence(a, 0) == Some(k)
    ensures Redact(s) == Redact(a) + "\n" + Redact(b)
  {
    var n := k + |Marker|;
    var e: string := [];
    PrefixOfJoined(s, a, b, n);
    SameFirstOccurrence(a, s, k);
    PrefixOfJoined(s, a, b, k);
    RestOfLine(s, a, b, n, e);
    RedactAt(s, k, a[..k], s[n..]);
    RedactAfterCleanLine(e, b);
    RedactSingleLine(a);
    JoinAfterReplacement(Redact(s), Redact(a), a[..k], Redact(e + "\n" + b), Redact(b), e);
  }

  /** Two Basic Authorization lines in one header element: both tokens are
      removed. */
  lemma {:induction false} TwoAuthorizationLines(x: string, y: string)
    requires SingleLine(x) && SingleLine(y)
    ensures Redact((Marker + x) + "\n" + (Marker + y)) == Replacement + "\n" + Replacement
  {
    MarkerLine(x);
    RedactAuthorizationLine(x);
    RedactAuthorizationLine(y);
    RedactAcrossLineFeed(Marker + x, Marker + y);
  }

  /** Rewriting a header list twice is rewriting it once. */
  lemma RedactLinesIdempotent(lines: seq<string>)
    ensures RedactLines(RedactLines(lines)) == RedactLines(lines)
  {
    forall i | 0 <= i < |lines| ensures RedactLines(RedactLines(lines))[i] == RedactLines(lines)[i] {
      RedactIdempotent(lines[i]);
    }
  }

  /** A Basic `Authorization` line is rewritten to exactly the
      replacement, whatever its token, as long as the token stays on the
      line. */
  lemma {:induction false} RedactAuthorizationLine(token: string)
    requires SingleLine(token)
    ensures Redact(Marker + token) == Replacement
  {
    var s := Marker + token;
    assert OccursAt(s, 0) by {
      assert s[..|Marker|] == Marker;
    }
    assert FirstOccurrence(s, 0) == Some(0);
    MarkerLine(token);
    RedactSingleLine(s);
  }

  /** The marker followed by a token without line feeds is one line. */
  lemma {:induction false} MarkerLine(token: string)
    requires SingleLine(token)
    ensures SingleLine(Marker + token)
  {
    var s := Marker + token;
    forall m | 0 <= m < |s| ensures s[m] != '\n' {
      if m >= |Marker| {
        assert s[m] == token[m - |Marker|];
      }
    }
  }
}
