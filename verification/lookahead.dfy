/**
 * `add_closing_heading_if_needed`: after a special environment or a pair of
 * images closes inside a frame, a read-only scan of the following lines
 * decides whether the rest of the frame needs an empty "ignoreheading"
 * heading to return to the frame level.
 */
module Lookahead {
  import opened Wrappers
  import opened Text
  import opened Org
  import opened Images

  /** The environment openers that stop the scan (`\begin{thm}` is not one). */
  const SpecialEnvStarters: seq<string> := [
    "\\begin{block}", "\\begin{theorem}", "\\begin{proof}",
    "\\begin{prop}", "\\begin{prop*}", "\\begin{thm*}"
  ]

  /** A blank line or a comment line, which the scan passes over. */
  predicate Skippable(t: string) {
    t == [] || StartsWith(t, "%")
  }

  predicate StartsSpecialEnv(t: string) {
    exists j :: 0 <= j < |SpecialEnvStarters| && StartsWith(t, SpecialEnvStarters[j])
  }

  /** A line that ends the scan without a closing heading. */
  predicate Stops(t: string) {
    StartsWith(t, "\\end{frame}") || StartsSpecialEnv(t) || Count(t, IncludeGraphics) == 2
  }

  /** Line `m` is the first line from `k` on that the scan does not pass over. */
  predicate FirstContent(lines: seq<string>, k: nat, m: nat) {
    k <= m < |lines| && !Skippable(Strip(lines[m]))
    && forall j :: k <= j < m ==> Skippable(Strip(lines[j]))
  }

  /** The index of the first line from `k` on that is neither blank nor a comment. */
  function ScanFrom(lines: seq<string>, k: nat): (r: Option<nat>)
    ensures r.Some? ==> FirstContent(lines, k, r.value)
    ensures r.None? ==> forall j :: k <= j < |lines| ==> Skippable(Strip(lines[j]))
    decreases |lines| - k
  {
    if k >= |lines| then None
    else if Skippable(Strip(lines[k])) then ScanFrom(lines, k + 1)
    else Some(k)
  }

  /** Whether the scan from index `k` on ends by adding the closing heading. */
  predicate ClosingFrom(lines: seq<string>, k: nat) {
    match ScanFrom(lines, k)
    case None => false
    case Some(m) => !Stops(Strip(lines[m]))
  }

  /** The scan of `add_closing_heading_if_needed` starts after the current line. */
  predicate ClosingNeeded(lines: seq<string>, current: nat) {
    ClosingFrom(lines, current + 1)
  }

  lemma FirstContentUnique(lines: seq<string>, k: nat, m: nat, m': nat)
    requires FirstContent(lines, k, m) && FirstContent(lines, k, m')
    ensures m == m'
  {
  }

  /**
   * The closing heading is added exactly when the first later line that is
   * neither blank nor a comment exists and neither ends the frame, opens one
   * of the six special environments, nor holds exactly two
   * `\includegraphics`; in particular never when only blank and comment
   * lines follow.
   */
  lemma ClosingNeededIff(lines: seq<string>, current: nat)
    ensures ClosingNeeded(lines, current) <==>
      exists m: nat :: FirstContent(lines, current + 1, m) && !Stops(Strip(lines[m]))
    ensures (forall j :: current < j < |lines| ==> Skippable(Strip(lines[j]))) ==> !ClosingNeeded(lines, current)
  {
    var r := ScanFrom(lines, current + 1);
    if exists m: nat :: FirstContent(lines, current + 1, m) && !Stops(Strip(lines[m])) {
      var m: nat :| FirstContent(lines, current + 1, m) && !Stops(Strip(lines[m]));
      if r.Some? {
        FirstContentUnique(lines, current + 1, m, r.value);
      }
    }
  }

  /** A blank or comment line is passed over. */
  lemma ScanSkips(lines: seq<string>, k: nat)
    requires k < |lines| && Skippable(Strip(lines[k]))
    ensures ScanFrom(lines, k) == ScanFrom(lines, k + 1)
  {
  }

  /** The scan stops at the first line that is not passed over. */
  lemma ScanStops(lines: seq<string>, k: nat)
    requires k < |lines| && !Skippable(Strip(lines[k]))
    ensures ScanFrom(lines, k) == Some(k)
  {
  }

  /**
   * `\begin{thm}` does not stop the scan: it is none of the six special
   * openers, which differ from it inside the braces.
   */
  lemma ThmNotStopper(t: string)
    requires StartsWith(t, "\\begin{thm}") && Count(t, IncludeGraphics) != 2
    ensures !Stops(t)
  {
    PrefixClash(t, "\\begin{thm}", "\\end{frame}", 1);
    forall j | 0 <= j < |SpecialEnvStarters| ensures !StartsWith(t, SpecialEnvStarters[j]) {
      var k := if j == 1 then 9 else if j == 5 then 10 else 7;
      PrefixClash(t, "\\begin{thm}", SpecialEnvStarters[j], k);
    }
  }

  /**
   * So after a special environment or a pair of images, a `\begin{thm}` as
   * the next line that is neither blank nor a comment gets the closing heading
   * in front of it.
   */
  lemma ThmGetsClosing(lines: seq<string>, current: nat, m: nat)
    requires FirstContent(lines, current + 1, m)
    requires StartsWith(Strip(lines[m]), "\\begin{thm}") && Count(Strip(lines[m]), IncludeGraphics) != 2
    ensures ClosingNeeded(lines, current)
  {
    ThmNotStopper(Strip(lines[m]));
    ClosingNeededIff(lines, current);
  }

  /** The four lines of an empty heading one level below `level`. */
  function ClosingBlock(level: int): (r: seq<string>)
    ensures |r| == 4 && r[0] == Repeat('*', level + 1) + " Empty Title :B_ignoreheading:"
  {
    [Repeat('*', level + 1) + " Empty Title :B_ignoreheading:",
     ":PROPERTIES:",
     ":BEAMER_env: ignoreheading",
     ":END:"]
  }

  /**
   * `add_closing_heading_if_needed`: the earlier output is untouched, and
   * the closing block is appended exactly when the scan asks for it.
   */
  method AddClosingHeadingIfNeeded(org: OrgOutput, lines: seq<string>, current: nat, level: int)
    modifies org
    ensures org.lines == old(org.lines) + (if ClosingNeeded(lines, current) then ClosingBlock(level) else [])
  {
    var i := current + 1;
    while i < |lines|
      invariant current + 1 <= i
      invariant ScanFrom(lines, current + 1) == ScanFrom(lines, i)
      invariant org.lines == old(org.lines)
      decreases |lines| - i
    {
      var nextLine := Strip(lines[i]);
      if nextLine == [] || StartsWith(nextLine, "%") {
        ScanSkips(lines, i);
        i := i + 1;
      } else if StartsWith(nextLine, "\\end{frame}") || StartsSpecialEnvScan(nextLine) || Count(nextLine, IncludeGraphics) == 2 {
        ScanStops(lines, i);
        return;
      } else {
        // The test `next_line.startswith(r'\item') or next_line` always
        // holds here, since blank lines were passed over above.
        ScanStops(lines, i);
        org.Extend(ClosingBlock(level));
        return;
      }
    }
    assert org.lines + [] == org.lines;
  }

  /** `any(next_line.startswith(env) for env in special_env_starters)`. */
  function StartsSpecialEnvScan(t: string): (r: bool)
    ensures r <==> StartsSpecialEnv(t)
  {
    StartsWith(t, SpecialEnvStarters[0]) || StartsWith(t, SpecialEnvStarters[1])
    || StartsWith(t, SpecialEnvStarters[2]) || StartsWith(t, SpecialEnvStarters[3])
    || StartsWith(t, SpecialEnvStarters[4]) || StartsWith(t, SpecialEnvStarters[5])
  }
}
