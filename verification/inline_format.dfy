/**
 * The inline formatter (`format_text`): rewrites `\textbf{X}`, `\uline{X}` and
 * `\italic{X}`, with X free of braces, into the Org emphasis `*X*`, `_X_` and
 * `/X/`, moving one trailing space of X outside the closing marker, until no
 * pattern matches any more.
 */
module InlineFormat {
  import opened Wrappers
  import opened Text

  datatype Style = Bold | Underline | Italic

  /** The order in which the patterns are tried in each pass. */
  const Styles: seq<Style> := [Bold, Underline, Italic]

  /** The literal text a match begins with: the command and its opening brace. */
  function Opener(k: Style): (r: string)
    ensures |r| >= 7
  {
    match k
    case Bold => "\\textbf{"
    case Underline => "\\uline{"
    case Italic => "\\italic{"
  }

  /** The position of `k` in `Styles`. */
  function Rank(k: Style): (m: nat)
    ensures m < |Styles| && Styles[m] == k
  {
    match k
    case Bold => 0
    case Underline => 1
    case Italic => 2
  }

  /** The Org emphasis marker written on both sides of the content. */
  function Marker(k: Style): char {
    match k
    case Bold => '*'
    case Underline => '_'
    case Italic => '/'
  }

  predicate IsBrace(c: char) {
    c == '{' || c == '}'
  }

  predicate BraceFree(s: string, i: int, j: int)
    requires 0 <= i && j <= |s|
  {
    forall m :: i <= m < j ==> !IsBrace(s[m])
  }

  /**
   * The pattern of style `k` matches `s[p..e+1]`: the opener at `p`, brace-free
   * content up to `e`, and the closing brace at `e`.
   */
  predicate MatchAt(s: string, k: Style, p: int, e: int) {
    OccursAt(s, Opener(k), p) && p + |Opener(k)| <= e < |s| && s[e] == '}'
    && BraceFree(s, p + |Opener(k)|, e)
  }

  /** The first brace at or after `i`, or `|s|`. */
  function FirstBrace(s: string, i: nat): (e: nat)
    requires i <= |s|
    ensures i <= e <= |s| && BraceFree(s, i, e)
    ensures e < |s| ==> IsBrace(s[e])
    decreases |s| - i
  {
    if i == |s| || IsBrace(s[i]) then i else FirstBrace(s, i + 1)
  }

  /** A brace preceded only by non-braces from `i` on is the first brace from `i`. */
  lemma {:induction false} FirstBraceIs(s: string, i: nat, e: nat)
    requires i <= e < |s| && BraceFree(s, i, e) && IsBrace(s[e])
    ensures FirstBrace(s, i) == e
    decreases e - i
  {
    if i < e {
      FirstBraceIs(s, i + 1, e);
    }
  }

  /** A match at `p` can only close at the first brace after the opener. */
  lemma MatchEnd(s: string, k: Style, p: int, e: int)
    requires MatchAt(s, k, p, e)
    ensures e == FirstBrace(s, p + |Opener(k)|)
  {
    FirstBraceIs(s, p + |Opener(k)|, e);
  }

  /** `Search` finds the leftmost match. */
  lemma SearchFinds(s: string, k: Style, p: int, e: int)
    requires MatchAt(s, k, p, e)
    requires forall q, f :: 0 <= q < p ==> !MatchAt(s, k, q, f)
    ensures Search(s, k) == Some((p, e))
  {
    var r := Search(s, k);
    assert r.Some?;
    var p', e' := r.value.0, r.value.1;
    assert p' == p by {
      assert p' < p ==> !MatchAt(s, k, p', e');
      assert p < p' ==> !MatchAt(s, k, p, e);
    }
    MatchEnd(s, k, p, e);
    MatchEnd(s, k, p, e');
  }

  /** Python's `re.search` for the pattern of `k`, from index `from` on: the leftmost match. */
  function SearchFrom(s: string, k: Style, from: nat): (r: Option<(nat, nat)>)
    ensures r.Some? ==> from <= r.value.0 && MatchAt(s, k, r.value.0, r.value.1)
    ensures r.Some? ==> forall q, f :: from <= q < r.value.0 ==> !MatchAt(s, k, q, f)
    ensures r.None? ==> forall q, f :: from <= q ==> !MatchAt(s, k, q, f)
    decreases |s| - from
  {
    var start := from + |Opener(k)|;
    if start >= |s| then None
    else if OccursAt(s, Opener(k), from) && FirstBrace(s, start) < |s| && s[FirstBrace(s, start)] == '}' then
      Some((from, FirstBrace(s, start)))
    else
      assert forall f :: !MatchAt(s, k, from, f) by {
        forall f | MatchAt(s, k, from, f) ensures false {
          MatchEnd(s, k, from, f);
        }
      }
      SearchFrom(s, k, from + 1)
  }

  function Search(s: string, k: Style): Option<(nat, nat)> {
    SearchFrom(s, k, 0)
  }

  /** No match of any of the three patterns is left in `s`. */
  predicate Clean(s: string) {
    forall k: Style :: Search(s, k).None?
  }

  /** `content` without one trailing space. */
  function Trimmed(content: string): string {
    if |content| > 0 && content[|content| - 1] == ' ' then content[..|content| - 1] else content
  }

  /** The Org emphasis of captured `content`: the trimmed content between two markers. */
  function Emphasis(k: Style, content: string): (w: string)
    ensures |w| >= 2 && w[0] == Marker(k) && w[|w| - 1] == Marker(k)
  {
    [Marker(k)] + Trimmed(content) + [Marker(k)]
  }

  /** The Org form of captured `content`, with one trailing space moved outside. */
  function Wrapped(k: Style, content: string): (r: string)
    ensures |r| == |content| + 2
  {
    Emphasis(k, content) + (if |content| > 0 && content[|content| - 1] == ' ' then " " else "")
  }

  /**
   * `s` with the match of `k` spanning `s[p..e+1]` rewritten into its Org
   * form: the text before and after the match is kept, and the line gets
   * shorter by the length of the opener minus one.
   */
  function Replace(s: string, k: Style, p: nat, e: nat): (r: string)
    requires p + |Opener(k)| <= e < |s|
    ensures |r| == |s| - |Opener(k)| + 1
    ensures r[..p] == s[..p] && r[|r| - (|s| - (e + 1))..] == s[e + 1..]
  {
    var w := Wrapped(k, s[p + |Opener(k)|..e]);
    var r := s[..p] + w + s[e + 1..];
    assert r[..p] == s[..p];
    assert r[p + |w|..] == s[e + 1..];
    r
  }

  /** The inner `while re.search(...)` loop: rewrite matches of `k` until none is left. */
  function Exhaust(s: string, k: Style): (r: string)
    ensures |r| <= |s|
    ensures Search(r, k).None?
    ensures r == s <==> Search(s, k).None?
    ensures r != s ==> |r| < |s|
    decreases |s|
  {
    match Search(s, k)
    case Some(m) => Exhaust(Replace(s, k, m.0, m.1), k)
    case None => s
  }

  /** The first `j` inner loops of one pass of the outer loop. */
  function PassUpTo(s: string, j: nat): (r: string)
    requires j <= |Styles|
    ensures |r| <= |s|
    ensures r != s ==> |r| < |s|
    ensures r == s <==> forall m :: 0 <= m < j ==> Search(s, Styles[m]).None?
  {
    if j == 0 then s else Exhaust(PassUpTo(s, j - 1), Styles[j - 1])
  }

  /** One pass of the outer `while replacements_made` loop. */
  function Pass(s: string): (r: string)
    ensures r == s <==> Clean(s)
    ensures r != s ==> |r| < |s|
  {
    assert Clean(s) <== forall m :: 0 <= m < |Styles| ==> Search(s, Styles[m]).None? by {
      if forall m :: 0 <= m < |Styles| ==> Search(s, Styles[m]).None? {
        forall k: Style ensures Search(s, k).None? {
          assert Styles[Rank(k)] == k;
        }
      }
    }
    PassUpTo(s, |Styles|)
  }

  /** `format_text`: passes are repeated until one makes no replacement. */
  function Format(s: string): (r: string)
    decreases |s|
  {
    var t := Pass(s);
    if t == s then s else Format(t)
  }

  /** Formatting leaves no match of any of the three patterns. */
  lemma {:induction false} FormatIsClean(s: string)
    ensures Clean(Format(s))
    decreases |s|
  {
    if Pass(s) != s { FormatIsClean(Pass(s)); }
  }

  /** A line with nothing to rewrite is returned unchanged. */
  lemma FormatClean(s: string)
    requires Clean(s)
    ensures Format(s) == s
  {
  }

  /** Formatting twice is the same as formatting once. */
  lemma FormatIdempotent(s: string)
    ensures Format(Format(s)) == Format(s)
  {
    FormatIsClean(s);
    FormatClean(Format(s));
  }

  /** The text of a match of `k` with content `c`: opener, content, closing brace. */
  function Command(k: Style, c: string): string {
    Opener(k) + c + "}"
  }

  ghost predicate Occurs(t: string, x: string) {
    exists i :: OccursAt(t, x, i)
  }

  /** A match of `k` with content `c` is still in `t`, or its emphasis is. */
  ghost predicate Keeps(t: string, k: Style, c: string) {
    Occurs(t, Command(k, c)) || Occurs(t, Emphasis(k, c))
  }

  predicate IsMarker(ch: char) {
    ch == '*' || ch == '_' || ch == '/'
  }

  /** An opener holds no marker, and its only brace is its last character. */
  lemma OpenerChars(k: Style)
    ensures Opener(k)[|Opener(k)| - 1] == '{'
    ensures forall m :: 0 <= m < |Opener(k)| - 1 ==> !IsBrace(Opener(k)[m])
    ensures forall m :: 0 <= m < |Opener(k)| ==> !IsMarker(Opener(k)[m])
  {
  }

  /** The last seven characters of an opener. */
  function Tail(k: Style): (r: string)
    ensures r == Opener(k)[|Opener(k)| - 7..]
  {
    match k
    case Bold => "textbf{"
    case Underline => "\\uline{"
    case Italic => "italic{"
  }

  /** No two openers end alike. */
  lemma OpenerTails(k: Style, k': Style)
    requires Tail(k) == Tail(k')
    ensures k == k'
  {
    assert Tail(k)[0] == Tail(k')[0] && Tail(k)[1] == Tail(k')[1];
  }

  /** In a match, the only brace before the closing one ends the opener. */
  lemma MatchBraces(t: string, k: Style, p: int, e: int)
    requires MatchAt(t, k, p, e)
    ensures t[p + |Opener(k)| - 1] == '{' && t[e] == '}'
    ensures forall m :: p <= m < e && IsBrace(t[m]) ==> m == p + |Opener(k)| - 1
  {
    OpenerChars(k);
    OccursChars(t, Opener(k), p);
    forall m | p <= m < p + |Opener(k)| ensures t[m] == Opener(k)[m - p] {
      assert t[p + (m - p)] == Opener(k)[m - p];
    }
  }

  /** The seven characters before the end `a` of an opener are the opener's last seven. */
  lemma OpenerTail(t: string, k: Style, a: int)
    requires OccursAt(t, Opener(k), a - |Opener(k)|)
    ensures t[a - 7..a] == Tail(k)
  {
    var n := |Opener(k)|;
    SliceOfSlice(t, a - n, a, n - 7, n);
  }

  /**
   * Two overlapping spans, each with an opening brace at `b`/`b'`, a closing
   * brace at `e`/`f` and no other brace from its start on, have the same braces.
   */
  lemma SameBraces(t: string, p: int, b: int, e: int, q: int, b': int, f: int)
    requires 0 <= p <= b < e < |t| && t[b] == '{' && t[e] == '}'
    requires 0 <= q <= b' < f < |t| && t[b'] == '{' && t[f] == '}'
    requires forall m :: p <= m < e && IsBrace(t[m]) ==> m == b
    requires forall m :: q <= m < f && IsBrace(t[m]) ==> m == b'
    requires p <= f && q <= e
    ensures b == b' && e == f
  {
  }

  /** Two matches that overlap have their opening and closing braces in common. */
  lemma MatchesAlign(t: string, k: Style, p: int, e: int, k': Style, q: int, f: int)
    requires MatchAt(t, k, p, e) && MatchAt(t, k', q, f)
    requires p <= f && q <= e
    ensures p + |Opener(k)| == q + |Opener(k')| && e == f
  {
    MatchBraces(t, k, p, e);
    MatchBraces(t, k', q, f);
    SameBraces(t, p, p + |Opener(k)| - 1, e, q, q + |Opener(k')| - 1, f);
  }

  /** Two matches that overlap are the same match. */
  lemma MatchesDisjoint(t: string, k: Style, p: int, e: int, k': Style, q: int, f: int)
    requires MatchAt(t, k, p, e) && MatchAt(t, k', q, f)
    requires p <= f && q <= e
    ensures k == k' && p == q && e == f
  {
    MatchesAlign(t, k, p, e, k', q, f);
    SameOpener(t, k, p, k', q);
  }

  /** Two openers that end at the same place are the same opener. */
  lemma SameOpener(t: string, k: Style, p: int, k': Style, q: int)
    requires OccursAt(t, Opener(k), p) && OccursAt(t, Opener(k'), q)
    requires p + |Opener(k)| == q + |Opener(k')|
    ensures k == k' && p == q
  {
    var a := p + |Opener(k)|;
    OpenerTail(t, k, a);
    OpenerTail(t, k', a);
    OpenerTails(k, k');
  }

  /** The parts of an occurrence of `o + c + "}"`. */
  lemma CommandParts(t: string, o: string, c: string, i: int)
    requires OccursAt(t, o + c + "}", i)
    ensures OccursAt(t, o, i) && t[i + |o|..i + |o| + |c|] == c && t[i + |o| + |c|] == '}'
  {
    var x := o + c + "}";
    assert x[0..|o|] == o && x[|o|..|o| + |c|] == c;
    SliceOfSlice(t, i, i + |x|, 0, |o|);
    SliceOfSlice(t, i, i + |x|, |o|, |o| + |c|);
    assert t[i + |o| + |c|] == t[i..i + |x|][|o| + |c|];
  }

  /** The text of a match, with brace-free content, is a match. */
  lemma CommandMatch(t: string, k: Style, c: string, i: int)
    requires BraceFree(c, 0, |c|) && OccursAt(t, Command(k, c), i)
    ensures MatchAt(t, k, i, i + |Opener(k)| + |c|)
    ensures t[i + |Opener(k)|..i + |Opener(k)| + |c|] == c
  {
    var n := |Opener(k)|;
    CommandParts(t, Opener(k), c, i);
    forall m | i + n <= m < i + n + |c| ensures !IsBrace(t[m]) {
      assert t[m] == t[i + n..i + n + |c|][m - i - n];
    }
  }

  /** The text from an occurrence of `o` up to a closing brace is `o`, content and brace. */
  lemma Spans(t: string, o: string, p: int, e: int)
    requires OccursAt(t, o, p) && p + |o| <= e < |t| && t[e] == '}'
    ensures OccursAt(t, o + t[p + |o|..e] + "}", p)
  {
    assert t[p..e + 1] == t[p..p + |o|] + t[p + |o|..e] + [t[e]];
  }

  /** A match spans the text of a match with its own, brace-free, content. */
  lemma MatchCommand(t: string, k: Style, p: int, e: int)
    requires MatchAt(t, k, p, e)
    ensures BraceFree(t[p + |Opener(k)|..e], 0, e - p - |Opener(k)|)
    ensures OccursAt(t, Command(k, t[p + |Opener(k)|..e]), p)
  {
    var s := p + |Opener(k)|;
    Spans(t, Opener(k), p, e);
    forall m | 0 <= m < e - s ensures !IsBrace(t[s..e][m]) {
      assert t[s..e][m] == t[s + m];
    }
  }

  /** An occurrence outside `t[q..f+1]` survives replacing that span by `w`. */
  lemma KeptOutside(t: string, q: int, f: int, w: string, x: string, i: int)
    requires 0 <= q <= f < |t| && OccursAt(t, x, i)
    requires i + |x| <= q || f < i
    ensures Occurs(t[..q] + w + t[f + 1..], x)
  {
    if i + |x| <= q {
      OccursSlice(t, 0, q, x, i);
      assert t[0..q] == t[..q];
      OccursLeft(t[..q], w, x, i);
      OccursLeft(t[..q] + w, t[f + 1..], x, i);
    } else {
      OccursSlice(t, f + 1, |t|, x, i);
      assert t[f + 1..|t|] == t[f + 1..];
      OccursRight(t[..q] + w, t[f + 1..], x, i - f - 1);
    }
  }

  /** `Wrapped` is the trimmed content between markers, maybe followed by a space. */
  lemma WrappedParts(k: Style, c: string)
    ensures exists v :: Wrapped(k, c) == [Marker(k)] + Trimmed(c) + v
  {
    var sp := if |c| > 0 && c[|c| - 1] == ' ' then " " else "";
    assert Wrapped(k, c) == [Marker(k)] + Trimmed(c) + ([Marker(k)] + sp);
  }

  /** Text in the content, not ending in a space, is in its Org form one place further on. */
  lemma InWrapped(k: Style, c: string, w: string, x: int)
    requires OccursAt(c, w, x) && |w| > 0 && w[|w| - 1] != ' '
    ensures OccursAt(Wrapped(k, c), w, 1 + x)
  {
    var tc := Trimmed(c);
    assert x + |w| <= |tc| by {
      assert c[x..x + |w|][|w| - 1] == c[x + |w| - 1];
    }
    assert tc == c[0..|tc|];
    OccursSlice(c, 0, |tc|, w, x);
    WrappedParts(k, c);
    var v :| Wrapped(k, c) == [Marker(k)] + tc + v;
    OccursRight([Marker(k)], tc, w, x);
    OccursLeft([Marker(k)] + tc, v, w, 1 + x);
  }

  /**
   * Text inside the content `t[s..f]` of a rewritten match, not ending in a
   * space, keeps its occurrence.
   */
  lemma KeptInside(t: string, k: Style, q: int, s: int, f: int, w: string, i: int)
    requires 0 <= q <= s <= i && i + |w| <= f < |t| && OccursAt(t, w, i)
    requires |w| > 0 && w[|w| - 1] != ' '
    ensures Occurs(t[..q] + Wrapped(k, t[s..f]) + t[f + 1..], w)
  {
    OccursSlice(t, s, f, w, i);
    InWrapped(k, t[s..f], w, i - s);
    OccursRight(t[..q], Wrapped(k, t[s..f]), w, 1 + (i - s));
    OccursLeft(t[..q] + Wrapped(k, t[s..f]), t[f + 1..], w, q + 1 + (i - s));
  }

  /** An emphasis of brace-free content holds no brace, and ends with a marker. */
  lemma EmphasisChars(k: Style, c: string)
    requires BraceFree(c, 0, |c|)
    ensures forall m :: 0 <= m < |Emphasis(k, c)| ==> !IsBrace(Emphasis(k, c)[m])
    ensures IsMarker(Emphasis(k, c)[|Emphasis(k, c)| - 1])
  {
    var w := Emphasis(k, c);
    forall m | 0 <= m < |w| ensures !IsBrace(w[m]) {
      if 0 < m < |w| - 1 {
        assert w[m] == c[m - 1];
      }
    }
  }

  /**
   * A brace-free stretch `t[i..e]` ending in a marker that overlaps the span
   * from `q` to the brace at `f`, whose first brace is at `b` with no marker
   * before it, lies between the two braces.
   */
  lemma BetweenBraces(t: string, i: int, e: int, q: int, b: int, f: int)
    requires 0 <= i < e <= |t| && IsMarker(t[e - 1])
    requires forall j :: i <= j < e ==> !IsBrace(t[j])
    requires 0 <= q <= b < f < |t| && IsBrace(t[b]) && IsBrace(t[f])
    requires forall j :: q <= j < b ==> !IsMarker(t[j])
    requires i <= f && q < e
    ensures b < i && e <= f
  {
  }

  /** An occurrence of the emphasis of brace-free content has no brace and ends with a marker. */
  lemma EmphasisInText(t: string, k: Style, c: string, i: int)
    requires BraceFree(c, 0, |c|) && OccursAt(t, Emphasis(k, c), i)
    ensures forall j :: i <= j < i + |Emphasis(k, c)| ==> !IsBrace(t[j])
    ensures IsMarker(t[i + |Emphasis(k, c)| - 1])
  {
    var w := Emphasis(k, c);
    EmphasisChars(k, c);
    OccursChars(t, w, i);
    forall j | i <= j < i + |w| ensures !IsBrace(t[j]) {
      assert t[i + (j - i)] == w[j - i];
    }
    assert t[i + (|w| - 1)] == w[|w| - 1];
  }

  /** The opener of a match holds no marker. */
  lemma OpenerNoMarker(t: string, k: Style, q: int)
    requires OccursAt(t, Opener(k), q)
    ensures forall j :: q <= j < q + |Opener(k)| - 1 ==> !IsMarker(t[j])
  {
    OpenerChars(k);
    OccursChars(t, Opener(k), q);
    forall j | q <= j < q + |Opener(k)| - 1 ensures !IsMarker(t[j]) {
      assert t[q + (j - q)] == Opener(k)[j - q];
    }
  }

  /** An emphasis that overlaps a match lies inside the match's content. */
  lemma EmphasisPlace(t: string, k': Style, q: int, f: int, k: Style, c: string, i: int)
    requires MatchAt(t, k', q, f) && BraceFree(c, 0, |c|)
    requires OccursAt(t, Emphasis(k, c), i) && i <= f && q < i + |Emphasis(k, c)|
    ensures q + |Opener(k')| <= i && i + |Emphasis(k, c)| <= f
  {
    MatchBraces(t, k', q, f);
    OpenerNoMarker(t, k', q);
    EmphasisInText(t, k, c, i);
    BetweenBraces(t, i, i + |Emphasis(k, c)|, q, q + |Opener(k')| - 1, f);
  }

  /** Rewriting a match with content `c` leaves its emphasis where the match began. */
  lemma CommandBecomes(t: string, k: Style, q: nat, f: nat)
    requires q + |Opener(k)| <= f < |t|
    ensures Occurs(Replace(t, k, q, f), Emphasis(k, t[q + |Opener(k)|..f]))
  {
    var c := t[q + |Opener(k)|..f];
    var w := Emphasis(k, c);
    var sp := if |c| > 0 && c[|c| - 1] == ' ' then " " else "";
    assert OccursAt(w, w, 0);
    OccursLeft(w, sp, w, 0);
    OccursRight(t[..q], Wrapped(k, c), w, 0);
    OccursLeft(t[..q] + Wrapped(k, c), t[f + 1..], w, q);
  }

  /** Text outside a rewritten match keeps its occurrence. */
  lemma ReplaceOutside(t: string, k: Style, q: nat, f: nat, x: string, i: int)
    requires q + |Opener(k)| <= f < |t| && OccursAt(t, x, i)
    requires i + |x| <= q || f < i
    ensures Occurs(Replace(t, k, q, f), x)
  {
    KeptOutside(t, q, f, Wrapped(k, t[q + |Opener(k)|..f]), x, i);
  }

  /** Text inside the content of a rewritten match, not ending in a space, keeps its occurrence. */
  lemma ReplaceInside(t: string, k: Style, q: nat, f: nat, w: string, i: int)
    requires q + |Opener(k)| <= i && i + |w| <= f < |t| && OccursAt(t, w, i)
    requires |w| > 0 && w[|w| - 1] != ' '
    ensures Occurs(Replace(t, k, q, f), w)
  {
    KeptInside(t, k, q, q + |Opener(k)|, f, w, i);
  }

  /** Rewriting a match keeps an emphasis of brace-free content. */
  lemma EmphasisKept(t: string, k': Style, q: nat, f: nat, k: Style, c: string, i: int)
    requires MatchAt(t, k', q, f) && BraceFree(c, 0, |c|) && OccursAt(t, Emphasis(k, c), i)
    ensures Occurs(Replace(t, k', q, f), Emphasis(k, c))
  {
    var w := Emphasis(k, c);
    if i + |w| <= q || f < i {
      ReplaceOutside(t, k', q, f, w, i);
    } else {
      EmphasisPlace(t, k', q, f, k, c, i);
      ReplaceInside(t, k', q, f, w, i);
    }
  }

  /** Rewriting a match keeps a match of `k` with content `c`, or turns it into its emphasis. */
  lemma CommandKept(t: string, k': Style, q: nat, f: nat, k: Style, c: string, i: int)
    requires MatchAt(t, k', q, f) && BraceFree(c, 0, |c|) && OccursAt(t, Command(k, c), i)
    ensures Keeps(Replace(t, k', q, f), k, c)
  {
    var x := Command(k, c);
    if i + |x| <= q || f < i {
      ReplaceOutside(t, k', q, f, x, i);
      assert Occurs(Replace(t, k', q, f), Command(k, c));
    } else {
      var e := i + |Opener(k)| + |c|;
      CommandMatch(t, k, c, i);
      CommandHit(t, k', q, f, k, i, e, c);
    }
  }

  /** Rewriting a match that overlaps a match of `k` with content `c` turns it into its emphasis. */
  lemma CommandHit(t: string, k': Style, q: nat, f: nat, k: Style, i: int, e: int, c: string)
    requires MatchAt(t, k', q, f) && MatchAt(t, k, i, e) && i <= f && q <= e
    requires t[i + |Opener(k)|..e] == c
    ensures Occurs(Replace(t, k', q, f), Emphasis(k, c))
  {
    MatchesDisjoint(t, k, i, e, k', q, f);
    CommandBecomes(t, k, i, e);
  }

  /** One rewrite keeps a match of `k` with content `c`, or its emphasis. */
  lemma ReplaceKeeps(t: string, k': Style, q: nat, f: nat, k: Style, c: string)
    requires MatchAt(t, k', q, f) && BraceFree(c, 0, |c|) && Keeps(t, k, c)
    ensures Keeps(Replace(t, k', q, f), k, c)
  {
    if Occurs(t, Emphasis(k, c)) {
      var i :| OccursAt(t, Emphasis(k, c), i);
      EmphasisKept(t, k', q, f, k, c, i);
    } else {
      var i :| OccursAt(t, Command(k, c), i);
      CommandKept(t, k', q, f, k, c, i);
    }
  }

  lemma {:induction false} ExhaustKeeps(t: string, k': Style, k: Style, c: string)
    requires BraceFree(c, 0, |c|) && Keeps(t, k, c)
    ensures Keeps(Exhaust(t, k'), k, c)
    decreases |t|
  {
    match Search(t, k')
    case Some(m) =>
      ReplaceKeeps(t, k', m.0, m.1, k, c);
      ExhaustKeeps(Replace(t, k', m.0, m.1), k', k, c);
    case None =>
  }

  lemma {:induction false} PassUpToKeeps(t: string, j: nat, k: Style, c: string)
    requires j <= |Styles| && BraceFree(c, 0, |c|) && Keeps(t, k, c)
    ensures Keeps(PassUpTo(t, j), k, c)
  {
    if j > 0 {
      PassUpToKeeps(t, j - 1, k, c);
      ExhaustKeeps(PassUpTo(t, j - 1), Styles[j - 1], k, c);
    }
  }

  lemma {:induction false} FormatKeepsAll(t: string, k: Style, c: string)
    requires BraceFree(c, 0, |c|) && Keeps(t, k, c)
    ensures Keeps(Format(t), k, c)
    decreases |t|
  {
    if Pass(t) != t {
      PassUpToKeeps(t, |Styles|, k, c);
      FormatKeepsAll(Pass(t), k, c);
    }
  }

  /** A clean line holds no match. */
  lemma CleanNoCommand(t: string, k: Style, c: string)
    requires Clean(t) && BraceFree(c, 0, |c|)
    ensures !Occurs(t, Command(k, c))
  {
    assert Search(t, k).None?;
    forall i | OccursAt(t, Command(k, c), i) ensures false {
      CommandMatch(t, k, c, i);
    }
  }

  /**
   * Every match in the input comes out as its Org emphasis: `\textbf{X}`,
   * `\uline{X}` and `\italic{X}` with brace-free X become `*X*`, `_X_` and
   * `/X/`, X without one trailing space, somewhere in the formatted line.
   */
  lemma FormatKeeps(s: string, k: Style, p: int, e: int)
    requires MatchAt(s, k, p, e)
    ensures Contains(Format(s), Emphasis(k, s[p + |Opener(k)|..e]))
  {
    var c := s[p + |Opener(k)|..e];
    MatchCommand(s, k, p, e);
    FormatKeepsAll(s, k, c);
    FormatIsClean(s);
    CleanNoCommand(Format(s), k, c);
    ContainsIff(Format(s), Emphasis(k, c));
  }

  /**
   * The body of the inner loop of `format_text`: the captured content loses
   * one trailing space, which goes after the closing marker, and the match
   * is replaced.
   */
  method ReplaceMatch(text: string, k: Style, p: nat, e: nat) returns (r: string)
    requires p + |Opener(k)| <= e < |text|
    ensures r == Replace(text, k, p, e)
  {
    var content := text[p + |Opener(k)|..e];
    ghost var captured := content;
    var replacement;
    if |content| > 0 && content[|content| - 1] == ' ' {
      content := content[..|content| - 1];
      replacement := [Marker(k)] + content + [Marker(k)] + " ";
      assert replacement == Wrapped(k, captured);
    } else {
      replacement := [Marker(k)] + content + [Marker(k)];
      assert replacement == Wrapped(k, captured);
    }
    r := text[..p] + replacement + text[e + 1..];
  }

  /**
   * The inner `while re.search(...)` loop of `format_text` for style `k`:
   * it rewrites matches until none is left, and reports whether it rewrote any.
   */
  method ExhaustStyle(s: string, k: Style) returns (text: string, replaced: bool)
    ensures text == Exhaust(s, k)
    ensures replaced <==> text != s
  {
    text := s;
    replaced := false;
    var found := Search(text, k);
    while found.Some?
      invariant Exhaust(text, k) == Exhaust(s, k)
      invariant found == Search(text, k)
      invariant text != s ==> |text| < |s|
      invariant replaced <==> text != s
      decreases |text|
    {
      ghost var prev := text;
      text := ReplaceMatch(text, k, found.value.0, found.value.1);
      assert Exhaust(prev, k) == Exhaust(text, k);
      replaced := true;
      found := Search(text, k);
    }
  }

  /** `format_text` as the source writes it: nested loops reassigning `text`. */
  method FormatText(s: string) returns (text: string)
    ensures text == Format(s)
  {
    text := s;
    var replacementsMade := true;
    while replacementsMade
      invariant Format(text) == Format(s)
      invariant !replacementsMade ==> Pass(text) == text
      decreases |text| + (if replacementsMade then 1 else 0)
    {
      replacementsMade := false;
      ghost var start := text;
      for j := 0 to |Styles|
        invariant text == PassUpTo(start, j)
        invariant replacementsMade <==> text != start
      {
        var replaced;
        text, replaced := ExhaustStyle(text, Styles[j]);
        replacementsMade := replacementsMade || replaced;
      }
      assert text == Pass(start);
    }
  }
}
