/**
 * `convert_latex_to_org`: the single pass over the re-flowed lines of a
 * Beamer deck. Each line is stripped and formatted, then dropped, turned
 * into a heading, a frame, an environment block, images, a list item or
 * copied, depending on its leading command and on the state of the pass.
 */
module Converter {
  import opened Wrappers
  import opened Text
  import opened Org
  import opened InlineFormat
  import opened EquationPass
  import opened Headings
  import opened Images
  import opened Lookahead

  /** The environments recognised inside a frame, in the order they are tried. */
  const EnvTypes: seq<string> := ["block", "theorem", "proof", "prop", "prop*", "thm*", "thm"]

  /**
   * The variables of the pass. `level` is `header_level_count`, and
   * `levelBound` records whether that local has been assigned yet.
   */
  datatype State = State(
    out: seq<string>,
    title: string,
    sectionLevel: int,
    inFrame: bool,
    indent: int,
    headerRemoved: bool,
    level: int,
    levelBound: bool)

  const Init: State := State([], "", 0, false, 0, false, 0, false)

  /** `format_text(line.strip())`. */
  function Normalize(line: string): string {
    Format(Strip(line))
  }

  /**
   * The frame title: the text after the second `{` up to the last `}`,
   * stripped, or empty when that range is empty.
   */
  function FrameTitle(l: string): string {
    var first := Find(l, "{");
    var start := FindFrom(l, "{", first + 1) + 1;
    var end := RFind(l, "}");
    if start < end then Strip(PySlice(l, start, end)) else ""
  }

  /** The first environment, from index `j` on, whose `opener + name` starts `l`. */
  function FirstEnv(l: string, opener: string, j: nat): (r: Option<nat>)
    requires j <= |EnvTypes|
    ensures r.Some? ==> j <= r.value < |EnvTypes| && StartsWith(l, opener + EnvTypes[r.value])
    ensures r.Some? ==> forall m :: j <= m < r.value ==> !StartsWith(l, opener + EnvTypes[m])
    ensures r.None? ==> forall m :: j <= m < |EnvTypes| ==> !StartsWith(l, opener + EnvTypes[m])
    decreases |EnvTypes| - j
  {
    if j == |EnvTypes| then None
    else if StartsWith(l, opener + EnvTypes[j]) then Some(j)
    else FirstEnv(l, opener, j + 1)
  }

  /** `prop`, `prop*`, `thm*` and `thm` become Org's `theorem`. */
  function OrgEnv(env: string): string {
    if env == "prop" || env == "prop*" || env == "thm*" || env == "thm" then "theorem" else env
  }

  function UpperChar(c: char): char {
    if 'a' <= c <= 'z' then (c as int - 32) as char else c
  }

  function LowerChar(c: char): char {
    if 'A' <= c <= 'Z' then (c as int + 32) as char else c
  }

  function Lower(s: string): (r: string)
    ensures |r| == |s| && forall k :: 0 <= k < |s| ==> r[k] == LowerChar(s[k])
  {
    seq(|s|, k requires 0 <= k < |s| => LowerChar(s[k]))
  }

  /** `str.capitalize()` on ASCII letters. */
  function Capitalize(s: string): string {
    if s == [] then [] else [UpperChar(s[0])] + Lower(s[1..])
  }

  /** The block title: the last `{...}` when the line has exactly two `{`, else the capitalised name. */
  function EnvTitle(l: string, env: string): string {
    if Count(l, "{") == 2 then PySlice(l, RFind(l, "{") + 1, RFind(l, "}")) else Capitalize(env)
  }

  /** The heading and properties opening a Beamer block. */
  function EnvBlock(level: int, title: string, env: string): seq<string> {
    [Repeat('*', level) + " " + title + " :B_" + env + ":",
     ":PROPERTIES:",
     ":BEAMER_env: " + env,
     ":END:"]
  }

  /** The closing block when the lookahead asks for one. */
  function Closing(lines: seq<string>, i: nat, level: int): seq<string> {
    if ClosingNeeded(lines, i) then ClosingBlock(level) else []
  }

  /** What a content line of a frame does: the lines it appends and the new `indent_level` and `header_level_count`. */
  datatype Effect = Effect(added: seq<string>, indent: int, level: int)

  /** The effect of a content line of a frame (lines 330-401). */
  function FrameEffect(lines: seq<string>, i: nat, l: string, indent: int, level: int, dir: string,
                       fileExists: string -> bool): Result<Effect>
  {
    match FirstEnv(l, "\\begin{", 0)
    case Some(j) =>
      var env := OrgEnv(EnvTypes[j]);
      Ok(Effect(EnvBlock(level + 1, EnvTitle(l, env), env), 0, level + 1))
    case None =>
      if FirstEnv(l, "\\end{", 0).Some? then
        Ok(Effect(Closing(lines, i, level - 1), indent, level - 1))
      else if Count(l, IncludeGraphics) == 2 then
        match TwoImages(l, level)
        case Err(f) => Err(f)
        case Ok(images) => Ok(Effect(images + Closing(lines, i, level), indent, level))
      else if Contains(l, IncludeGraphics) then
        match Graphics(l, indent, dir, fileExists)
        case Err(f) => Err(f)
        case Ok(g) => Ok(Effect(g, indent, level))
      else if StartsWith(l, "\\begin{itemize}") || StartsWith(l, "\\begin{enumerate}") then
        Ok(Effect([], indent + 1, level))
      else if StartsWith(l, "\\end{itemize}") || StartsWith(l, "\\end{enumerate}") then
        Ok(Effect([], indent - 1, level))
      else if StartsWith(l, "\\item") then
        Ok(Effect([Repeat(' ', (indent - 1) * 2) + "- " + Strip(l[5..])], indent, level))
      else if indent > 0 then
        Ok(Effect([Repeat(' ', indent * 2) + l], indent, level))
      else
        Ok(Effect([l], indent, level))
  }

  /** A content line of a frame applied to the state of the pass. */
  function FrameLine(st: State, lines: seq<string>, i: nat, l: string, dir: string, fileExists: string -> bool)
    : Result<State>
  {
    match FrameEffect(lines, i, l, st.indent, st.level, dir, fileExists)
    case Err(f) => Err(f)
    case Ok(e) => Ok(st.(out := st.out + e.added, indent := e.indent, level := e.level))
  }

  /** A line once the header is out (lines 295-406). */
  function Body(st: State, lines: seq<string>, i: nat, l: string, dir: string, fileExists: string -> bool)
    : Result<State>
  {
    if StartsWith(l, "%") || StartsWith(l, "\\end{document}") then Ok(st)
    else if ProcessSection(l).Some? then
      var h := ProcessSection(l).value;
      Ok(st.(out := st.out + [h.line], sectionLevel := h.level))
    else if StartsWith(l, "\\begin{frame}") then
      var level := Max(st.sectionLevel, 1) + 1;
      Ok(st.(out := st.out + [Repeat('*', level) + " " + FrameTitle(l)], inFrame := true, indent := 0,
             level := level, levelBound := true))
    else if StartsWith(l, "\\end{frame}") then
      Ok(st.(inFrame := false, out := st.out + [""]))
    else if st.inFrame then
      FrameLine(st, lines, i, l, dir, fileExists)
    else if StartsWith(l, "%") || StartsWith(l, "\\end{document}") then
      // The re-check of line 404 never fires: line 295 already dropped these.
      Ok(st)
    else
      Ok(st.(out := st.out + [l]))
  }

  /** One iteration of the loop of `convert_latex_to_org`, for line `i`, whose normalised text is `l`. */
  function Step(st: State, lines: seq<string>, i: nat, l: string, dir: string, fileExists: string -> bool)
    : Result<State>
  {
    if StartsWith(l, "\\begin{center}") || StartsWith(l, "\\end{center}") then Ok(st)
    else if StartsWith(l, "\\begin{figure}") || StartsWith(l, "\\end{figure}") then Ok(st)
    else if StartsWith(l, "\\title") then Ok(st.(title := ExtractTitle(l, "Untitled Presentation")))
    else if !st.headerRemoved then
      if StartsWith(l, "\\section") then
        Body(st.(headerRemoved := true, out := st.out + HeaderBlock(st.title)), lines, i, l, dir, fileExists)
      else Ok(st)
    else Body(st, lines, i, l, dir, fileExists)
  }

  /** Every line stripped and formatted, as the loop sees it: no pattern of `format_text` is left in any. */
  function Normalized(lines: seq<string>): (r: seq<string>)
    ensures |r| == |lines| && forall k :: 0 <= k < |lines| ==> r[k] == Normalize(lines[k])
    ensures forall k :: 0 <= k < |r| ==> Clean(r[k])
  {
    var r := seq(|lines|, k requires 0 <= k < |lines| => Normalize(lines[k]));
    assert forall k :: 0 <= k < |r| ==> Clean(r[k]) by {
      forall k | 0 <= k < |r| ensures Clean(r[k]) {
        FormatIsClean(Strip(lines[k]));
      }
    }
    r
  }

  /** The loop over lines `i` to `n - 1`, where `norm` holds their normalised text; a crash ends it. */
  function Run(st: State, lines: seq<string>, norm: seq<string>, i: nat, n: nat, dir: string,
               fileExists: string -> bool): Result<State>
    requires i <= n <= |norm|
    decreases n - i
  {
    if i == n then Ok(st)
    else
      match Step(st, lines, i, norm[i], dir, fileExists)
      case Err(f) => Err(f)
      case Ok(next) => Run(next, lines, norm, i + 1, n, dir, fileExists)
  }

  /** `convert_latex_to_org`: the equation pre-pass, then the main pass. */
  function Convert(input: seq<string>, dir: string, fileExists: string -> bool): Result<seq<string>> {
    match Equations(input)
    case Err(f) => Err(f)
    case Ok(lines) =>
      match Run(Init, lines, Normalized(lines), 0, |lines|, dir, fileExists)
      case Err(f) => Err(f)
      case Ok(st) => Ok(st.out)
  }

  /** Running to `n` is running to `k`, then from `k` to `n`. */
  lemma {:induction false} RunSplit(st: State, lines: seq<string>, norm: seq<string>, i: nat, k: nat, n: nat,
                                    dir: string, fileExists: string -> bool)
    requires i <= k <= n <= |norm|
    ensures Run(st, lines, norm, i, n, dir, fileExists) ==
      match Run(st, lines, norm, i, k, dir, fileExists)
      case Err(f) => Err(f)
      case Ok(mid) => Run(mid, lines, norm, k, n, dir, fileExists)
    decreases k - i
  {
    if i < k {
      match Step(st, lines, i, norm[i], dir, fileExists)
      case Err(_) =>
      case Ok(next) => RunSplit(next, lines, norm, i + 1, k, n, dir, fileExists);
    }
  }

  /** The commands the pass drops without output. */
  predicate Dropped(l: string) {
    StartsWith(l, "\\title") || StartsWith(l, "\\begin{center}") || StartsWith(l, "\\end{center}")
    || StartsWith(l, "\\begin{figure}") || StartsWith(l, "\\end{figure}")
    || StartsWith(l, "%") || StartsWith(l, "\\end{document}")
  }

  /** The commands handled before the frame state is looked at. */
  predicate Directive(l: string) {
    Dropped(l) || StartsWith(l, "\\section") || StartsWith(l, "\\subsection")
    || StartsWith(l, "\\begin{frame}") || StartsWith(l, "\\end{frame}")
  }

  /** Before the header, a line other than `\section` sets the title when it is `\title`, and does nothing else. */
  lemma StepPreamble(st: State, lines: seq<string>, i: nat, l: string, dir: string, fileExists: string -> bool)
    requires !st.headerRemoved && !StartsWith(l, "\\section")
    ensures Step(st, lines, i, l, dir, fileExists) ==
      Ok(if StartsWith(l, "\\title") then st.(title := ExtractTitle(l, "Untitled Presentation")) else st)
  {
    if StartsWith(l, "\\title") {
      PrefixClash(l, "\\title", "\\begin{center}", 1);
      PrefixClash(l, "\\title", "\\end{center}", 1);
      PrefixClash(l, "\\title", "\\begin{figure}", 1);
      PrefixClash(l, "\\title", "\\end{figure}", 1);
    }
  }

  /**
   * Lines before the first `\section` produce no output: the state after
   * them differs from the one before at most in its title.
   */
  lemma {:induction false} PreambleSilent(st: State, lines: seq<string>, norm: seq<string>, i: nat, n: nat,
                                          dir: string, fileExists: string -> bool)
    requires i <= n <= |norm| && !st.headerRemoved
    requires forall k :: i <= k < n ==> !StartsWith(norm[k], "\\section")
    ensures Run(st, lines, norm, i, n, dir, fileExists).Ok?
    ensures var s := Run(st, lines, norm, i, n, dir, fileExists).value; s == st.(title := s.title)
    decreases n - i
  {
    if i < n {
      StepPreamble(st, lines, i, norm[i], dir, fileExists);
      var next := Step(st, lines, i, norm[i], dir, fileExists).value;
      PreambleSilent(next, lines, norm, i + 1, n, dir, fileExists);
    }
  }

  /**
   * The first `\section` line writes the eleven header lines with the title
   * seen so far, then its own `* name` heading, and sets section level 1.
   */
  lemma HeaderAtFirstSection(st: State, lines: seq<string>, i: nat, l: string, dir: string,
                             fileExists: string -> bool)
    requires !st.headerRemoved && StartsWith(l, "\\section")
    ensures Step(st, lines, i, l, dir, fileExists) ==
      Ok(st.(headerRemoved := true, sectionLevel := 1, out := st.out + HeaderBlock(st.title) + ["* " + SectionName(l)]))
  {
    PrefixClash(l, "\\section", "\\begin{center}", 1);
    PrefixClash(l, "\\section", "\\end{center}", 1);
    PrefixClash(l, "\\section", "\\begin{figure}", 1);
    PrefixClash(l, "\\section", "\\end{figure}", 1);
    PrefixClash(l, "\\section", "\\title", 1);
    PrefixClash(l, "\\section", "%", 0);
    PrefixClash(l, "\\section", "\\end{document}", 1);
    assert Repeat('*', 1) == "*";
  }

  /**
   * A deck whose first `\section` is line `n` has, after that line, exactly
   * the header block followed by the section heading as output.
   */
  lemma ConvertPreamble(lines: seq<string>, norm: seq<string>, n: nat, dir: string, fileExists: string -> bool)
    requires n < |norm|
    requires forall k :: 0 <= k < n ==> !StartsWith(norm[k], "\\section")
    requires StartsWith(norm[n], "\\section")
    ensures Run(Init, lines, norm, 0, n + 1, dir, fileExists).Ok?
    ensures var s := Run(Init, lines, norm, 0, n + 1, dir, fileExists).value;
      s.headerRemoved && s.sectionLevel == 1 && s.out == HeaderBlock(s.title) + ["* " + SectionName(norm[n])]
  {
    PreambleSilent(Init, lines, norm, 0, n, dir, fileExists);
    var mid := Run(Init, lines, norm, 0, n, dir, fileExists).value;
    RunSplit(Init, lines, norm, 0, n, n + 1, dir, fileExists);
    HeaderAtFirstSection(mid, lines, n, norm[n], dir, fileExists);
    EmptyLeft(mid.out, HeaderBlock(mid.title));
  }

  /** A dropped command changes no output, and the header flag neither. */
  lemma DroppedLines(st: State, lines: seq<string>, i: nat, l: string, dir: string, fileExists: string -> bool)
    requires Dropped(l)
    ensures Step(st, lines, i, l, dir, fileExists).Ok?
    ensures var s := Step(st, lines, i, l, dir, fileExists).value;
      s.out == st.out && s.headerRemoved == st.headerRemoved
  {
    if StartsWith(l, "%") || StartsWith(l, "\\end{document}") {
      CommentPrefixes(l);
    }
  }

  /** A `%` or `\end{document}` line starts with none of the commands tested before line 295. */
  lemma CommentPrefixes(l: string)
    requires StartsWith(l, "%") || StartsWith(l, "\\end{document}")
    ensures !StartsWith(l, "\\section") && !StartsWith(l, "\\title")
    ensures !StartsWith(l, "\\begin{center}") && !StartsWith(l, "\\end{center}")
    ensures !StartsWith(l, "\\begin{figure}") && !StartsWith(l, "\\end{figure}")
  {
    if StartsWith(l, "%") {
      PrefixClash(l, "%", "\\section", 0);
      PrefixClash(l, "%", "\\begin{center}", 0);
      PrefixClash(l, "%", "\\end{center}", 0);
      PrefixClash(l, "%", "\\begin{figure}", 0);
      PrefixClash(l, "%", "\\end{figure}", 0);
      PrefixClash(l, "%", "\\title", 0);
    } else {
      PrefixClash(l, "\\end{document}", "\\section", 1);
      PrefixClash(l, "\\end{document}", "\\begin{center}", 1);
      PrefixClash(l, "\\end{document}", "\\end{center}", 5);
      PrefixClash(l, "\\end{document}", "\\begin{figure}", 1);
      PrefixClash(l, "\\end{document}", "\\end{figure}", 5);
      PrefixClash(l, "\\end{document}", "\\title", 1);
    }
  }

  /**
   * The re-check at line 404 never fires: once the header is out, a `%` or
   * `\end{document}` line leaves the whole state as it was, inside a frame
   * or not, because line 295 drops it first.
   */
  lemma RecheckDead(st: State, lines: seq<string>, i: nat, l: string, dir: string, fileExists: string -> bool)
    requires st.headerRemoved
    requires StartsWith(l, "%") || StartsWith(l, "\\end{document}")
    ensures Step(st, lines, i, l, dir, fileExists) == Ok(st)
  {
    CommentPrefixes(l);
  }

  /**
   * After the header, `\begin{frame}` writes a heading one level below the
   * current section (level 2 before any section), enters the frame and
   * resets the list indentation.
   */
  lemma FrameHeading(st: State, lines: seq<string>, i: nat, l: string, dir: string, fileExists: string -> bool)
    requires st.headerRemoved && StartsWith(l, "\\begin{frame}")
    ensures var level := Max(st.sectionLevel, 1) + 1;
      Step(st, lines, i, l, dir, fileExists) ==
        Ok(st.(out := st.out + [Repeat('*', level) + " " + FrameTitle(l)], inFrame := true, indent := 0,
               level := level, levelBound := true))
  {
    PrefixClash(l, "\\begin{frame}", "\\begin{center}", 7);
    PrefixClash(l, "\\begin{frame}", "\\end{center}", 1);
    PrefixClash(l, "\\begin{frame}", "\\begin{figure}", 8);
    PrefixClash(l, "\\begin{frame}", "\\end{figure}", 1);
    PrefixClash(l, "\\begin{frame}", "\\title", 1);
    PrefixClash(l, "\\begin{frame}", "%", 0);
    PrefixClash(l, "\\begin{frame}", "\\end{document}", 1);
    PrefixClash(l, "\\begin{frame}", "\\section", 1);
    PrefixClash(l, "\\begin{frame}", "\\subsection", 1);
  }

  /** After the header, `\end{frame}` writes one empty line and leaves the frame. */
  lemma EndFrame(st: State, lines: seq<string>, i: nat, l: string, dir: string, fileExists: string -> bool)
    requires st.headerRemoved && StartsWith(l, "\\end{frame}")
    ensures Step(st, lines, i, l, dir, fileExists) == Ok(st.(inFrame := false, out := st.out + [""]))
  {
    PrefixClash(l, "\\end{frame}", "\\begin{center}", 1);
    PrefixClash(l, "\\end{frame}", "\\end{center}", 5);
    PrefixClash(l, "\\end{frame}", "\\begin{figure}", 1);
    PrefixClash(l, "\\end{frame}", "\\end{figure}", 6);
    PrefixClash(l, "\\end{frame}", "\\title", 1);
    PrefixClash(l, "\\end{frame}", "%", 0);
    PrefixClash(l, "\\end{frame}", "\\end{document}", 5);
    PrefixClash(l, "\\end{frame}", "\\section", 1);
    PrefixClash(l, "\\end{frame}", "\\subsection", 1);
    PrefixClash(l, "\\end{frame}", "\\begin{frame}", 1);
  }

  /** Inside a frame, a line that is no directive is a frame content line. */
  lemma StepInFrame(st: State, lines: seq<string>, i: nat, l: string, dir: string, fileExists: string -> bool)
    requires st.headerRemoved && st.inFrame && !Directive(l)
    ensures Step(st, lines, i, l, dir, fileExists) == FrameLine(st, lines, i, l, dir, fileExists)
  {
  }

  /** Inside a frame, a line that is no directive applies its frame effect. */
  lemma StepFrameEffect(st: State, lines: seq<string>, i: nat, l: string, dir: string, fileExists: string -> bool,
                        e: Effect, after: State)
    requires st.headerRemoved && st.inFrame && !Directive(l)
    requires FrameEffect(lines, i, l, st.indent, st.level, dir, fileExists) == Ok(e)
    requires after == st.(out := st.out + e.added, indent := e.indent, level := e.level)
    ensures Step(st, lines, i, l, dir, fileExists) == Ok(after)
  {
    StepInFrame(st, lines, i, l, dir, fileExists);
  }

  /** Outside a frame, after the header, a line that is no directive is copied as it is. */
  lemma StepOutsideFrame(st: State, lines: seq<string>, i: nat, l: string, dir: string, fileExists: string -> bool)
    requires st.headerRemoved && !st.inFrame && !Directive(l)
    ensures Step(st, lines, i, l, dir, fileExists) == Ok(st.(out := st.out + [l]))
  {
  }

  /** Every recognised environment name starts with `b`, `t` or `p`. */
  lemma EnvInitials(m: nat)
    requires m < |EnvTypes|
    ensures |EnvTypes[m]| > 0 && EnvTypes[m][0] in "btp"
  {
  }

  /** No environment follows `opener` when the next character of `l` is not `b`, `t` or `p`. */
  lemma NoEnvAfter(l: string, opener: string)
    requires |opener| < |l| && StartsWith(l, opener) && l[|opener|] !in "btp"
    ensures FirstEnv(l, opener, 0).None?
  {
    forall m | 0 <= m < |EnvTypes| ensures !StartsWith(l, opener + EnvTypes[m]) {
      EnvInitials(m);
      Differs(l, opener + EnvTypes[m], |opener|);
    }
  }

  /** No environment follows `opener` when `l` differs from `opener` itself. */
  lemma NoEnvAt(l: string, opener: string, k: nat)
    requires k < |opener| && k < |l| && l[k] != opener[k]
    ensures FirstEnv(l, opener, 0).None?
  {
    forall m | 0 <= m < |EnvTypes| ensures !StartsWith(l, opener + EnvTypes[m]) {
      Differs(l, opener + EnvTypes[m], k);
    }
  }

  /** A line naming no graphic is not a two-image line. */
  lemma NoGraphics(l: string)
    requires !Contains(l, IncludeGraphics)
    ensures Count(l, IncludeGraphics) == 0
  {
  }

  /** A line starting `\begin{` and then neither `center`, `figure` nor `frame` is no directive. */
  lemma OpenerNoDirective(l: string, p: string)
    requires p == "\\begin{itemize}" || p == "\\begin{enumerate}"
    requires StartsWith(l, p)
    ensures !Directive(l)
  {
    assert l[..|p|] == p;
    assert l[0] == '\\' && l[1] == 'b' && l[7] == p[7];
    Differs(l, "\\begin{center}", 7);
    Differs(l, "\\end{center}", 1);
    Differs(l, "\\begin{figure}", 7);
    Differs(l, "\\end{figure}", 1);
    Differs(l, "\\title", 1);
    Differs(l, "%", 0);
    Differs(l, "\\end{document}", 1);
    Differs(l, "\\section", 1);
    Differs(l, "\\subsection", 1);
    Differs(l, "\\begin{frame}", 7);
    Differs(l, "\\end{frame}", 1);
  }

  /** A line starting `\end{itemize}` or `\end{enumerate}` is no directive. */
  lemma CloserNoDirective(l: string, p: string)
    requires p == "\\end{itemize}" || p == "\\end{enumerate}"
    requires StartsWith(l, p)
    ensures !Directive(l)
  {
    assert l[..|p|] == p;
    assert l[0] == '\\' && l[1] == 'e' && l[5] == p[5];
    Differs(l, "\\begin{center}", 1);
    Differs(l, "\\end{center}", 5);
    Differs(l, "\\begin{figure}", 1);
    Differs(l, "\\end{figure}", 5);
    Differs(l, "\\title", 1);
    Differs(l, "%", 0);
    Differs(l, "\\end{document}", 5);
    Differs(l, "\\section", 1);
    Differs(l, "\\subsection", 1);
    Differs(l, "\\begin{frame}", 1);
    Differs(l, "\\end{frame}", 5);
  }

  /** A line starting `\item` is no directive. */
  lemma ItemNoDirective(l: string)
    requires StartsWith(l, "\\item")
    ensures !Directive(l)
  {
    assert l[0] == '\\' && l[1] == 'i';
    Differs(l, "\\begin{center}", 1);
    Differs(l, "\\end{center}", 1);
    Differs(l, "\\begin{figure}", 1);
    Differs(l, "\\end{figure}", 1);
    Differs(l, "\\title", 1);
    Differs(l, "%", 0);
    Differs(l, "\\end{document}", 1);
    Differs(l, "\\section", 1);
    Differs(l, "\\subsection", 1);
    Differs(l, "\\begin{frame}", 1);
    Differs(l, "\\end{frame}", 1);
  }

  /** The frame-content part of `ListOpens`. */
  lemma FrameListOpens(lines: seq<string>, i: nat, l: string, indent: int, level: int, dir: string, fileExists: string -> bool)
    requires !Contains(l, IncludeGraphics)
    requires StartsWith(l, "\\begin{itemize}") || StartsWith(l, "\\begin{enumerate}")
    ensures FrameEffect(lines, i, l, indent, level, dir, fileExists) == Ok(Effect([], indent + 1, level))
  {
    var p := if StartsWith(l, "\\begin{itemize}") then "\\begin{itemize}" else "\\begin{enumerate}";
    assert l[7] == p[7] && l[1] == 'b';
    assert StartsWith(l, "\\begin{") by { assert l[..7] == p[..7]; }
    NoEnvAfter(l, "\\begin{");
    NoEnvAt(l, "\\end{", 1);
    NoGraphics(l);
  }

  /** A list opener is no directive and has the frame effect of `FrameListOpens`. */
  lemma ListOpenerLine(lines: seq<string>, i: nat, l: string, indent: int, level: int, dir: string, fileExists: string -> bool)
    requires !Contains(l, IncludeGraphics)
    requires StartsWith(l, "\\begin{itemize}") || StartsWith(l, "\\begin{enumerate}")
    ensures !Directive(l)
    ensures FrameEffect(lines, i, l, indent, level, dir, fileExists) == Ok(Effect([], indent + 1, level))
  {
    OpenerNoDirective(l, if StartsWith(l, "\\begin{itemize}") then "\\begin{itemize}" else "\\begin{enumerate}");
    FrameListOpens(lines, i, l, indent, level, dir, fileExists);
  }

  /**
   * Inside a frame, `\begin{itemize}` and `\begin{enumerate}` nest the list
   * one level deeper and write nothing.
   */
  lemma ListOpens(st: State, lines: seq<string>, i: nat, l: string, dir: string, fileExists: string -> bool)
    requires st.headerRemoved && st.inFrame && !Contains(l, IncludeGraphics)
    requires StartsWith(l, "\\begin{itemize}") || StartsWith(l, "\\begin{enumerate}")
    ensures Step(st, lines, i, l, dir, fileExists) == Ok(st.(indent := st.indent + 1))
  {
    ListOpenerLine(lines, i, l, st.indent, st.level, dir, fileExists);
    EmptyRight(st.out);
    StepFrameEffect(st, lines, i, l, dir, fileExists, Effect([], st.indent + 1, st.level), st.(indent := st.indent + 1));
  }

  /** The frame-content part of `ListCloses`. */
  lemma FrameListCloses(lines: seq<string>, i: nat, l: string, indent: int, level: int, dir: string, fileExists: string -> bool)
    requires !Contains(l, IncludeGraphics)
    requires StartsWith(l, "\\end{itemize}") || StartsWith(l, "\\end{enumerate}")
    ensures FrameEffect(lines, i, l, indent, level, dir, fileExists) == Ok(Effect([], indent - 1, level))
  {
    var p := if StartsWith(l, "\\end{itemize}") then "\\end{itemize}" else "\\end{enumerate}";
    assert l[5] == p[5] && l[1] == 'e';
    Differs(l, "\\begin{itemize}", 1);
    Differs(l, "\\begin{enumerate}", 1);
    assert StartsWith(l, "\\end{") by { assert l[..5] == p[..5]; }
    NoEnvAt(l, "\\begin{", 1);
    NoEnvAfter(l, "\\end{");
    NoGraphics(l);
  }

  /** A list closer is no directive and has the frame effect of `FrameListCloses`. */
  lemma ListCloserLine(lines: seq<string>, i: nat, l: string, indent: int, level: int, dir: string, fileExists: string -> bool)
    requires !Contains(l, IncludeGraphics)
    requires StartsWith(l, "\\end{itemize}") || StartsWith(l, "\\end{enumerate}")
    ensures !Directive(l)
    ensures FrameEffect(lines, i, l, indent, level, dir, fileExists) == Ok(Effect([], indent - 1, level))
  {
    CloserNoDirective(l, if StartsWith(l, "\\end{itemize}") then "\\end{itemize}" else "\\end{enumerate}");
    FrameListCloses(lines, i, l, indent, level, dir, fileExists);
  }

  /**
   * Inside a frame, `\end{itemize}` and `\end{enumerate}` bring the list one
   * level back and write nothing.
   */
  lemma ListCloses(st: State, lines: seq<string>, i: nat, l: string, dir: string, fileExists: string -> bool)
    requires st.headerRemoved && st.inFrame && !Contains(l, IncludeGraphics)
    requires StartsWith(l, "\\end{itemize}") || StartsWith(l, "\\end{enumerate}")
    ensures Step(st, lines, i, l, dir, fileExists) == Ok(st.(indent := st.indent - 1))
  {
    ListCloserLine(lines, i, l, st.indent, st.level, dir, fileExists);
    EmptyRight(st.out);
    StepFrameEffect(st, lines, i, l, dir, fileExists, Effect([], st.indent - 1, st.level), st.(indent := st.indent - 1));
  }

  /** The frame-content part of `ItemLine`. */
  lemma FrameItem(lines: seq<string>, i: nat, l: string, indent: int, level: int, dir: string, fileExists: string -> bool)
    requires !Contains(l, IncludeGraphics) && StartsWith(l, "\\item")
    ensures FrameEffect(lines, i, l, indent, level, dir, fileExists) == Ok(Effect([Repeat(' ', 2 * (indent - 1)) + "- " + Strip(l[5..])], indent, level))
  {
    assert l[1] == 'i';
    Differs(l, "\\begin{itemize}", 1);
    Differs(l, "\\begin{enumerate}", 1);
    Differs(l, "\\end{itemize}", 1);
    Differs(l, "\\end{enumerate}", 1);
    NoEnvAt(l, "\\begin{", 1);
    NoEnvAt(l, "\\end{", 1);
    NoGraphics(l);
    assert (indent - 1) * 2 == 2 * (indent - 1);
  }

  /** An item line is no directive and has the frame effect of `FrameItem`. */
  lemma ItemEntryLine(lines: seq<string>, i: nat, l: string, indent: int, level: int, dir: string, fileExists: string -> bool)
    requires !Contains(l, IncludeGraphics) && StartsWith(l, "\\item")
    ensures !Directive(l)
    ensures FrameEffect(lines, i, l, indent, level, dir, fileExists) == Ok(Effect([Repeat(' ', 2 * (indent - 1)) + "- " + Strip(l[5..])], indent, level))
  {
    ItemNoDirective(l);
    FrameItem(lines, i, l, indent, level, dir, fileExists);
  }

  /**
   * Inside a frame, `\item T` writes `- ` and `T` stripped, after two spaces
   * per list level beyond the first (none at levels 1 and below).
   */
  lemma ItemLine(st: State, lines: seq<string>, i: nat, l: string, dir: string, fileExists: string -> bool)
    requires st.headerRemoved && st.inFrame && !Contains(l, IncludeGraphics) && StartsWith(l, "\\item")
    ensures Step(st, lines, i, l, dir, fileExists) ==
      Ok(st.(out := st.out + [Repeat(' ', 2 * (st.indent - 1)) + "- " + Strip(l[5..])]))
    ensures |Repeat(' ', 2 * (st.indent - 1))| == Max(0, 2 * (st.indent - 1))
  {
    ItemEntryLine(lines, i, l, st.indent, st.level, dir, fileExists);
    var added := [Repeat(' ', 2 * (st.indent - 1)) + "- " + Strip(l[5..])];
    StepFrameEffect(st, lines, i, l, dir, fileExists, Effect(added, st.indent, st.level), st.(out := st.out + added));
  }

  /** Inside a frame, a line opening or closing a recognised environment is frame content. */
  lemma EnvLineInFrame(st: State, lines: seq<string>, i: nat, l: string, dir: string, fileExists: string -> bool)
    requires st.headerRemoved && st.inFrame
    requires FirstEnv(l, "\\begin{", 0).Some? || FirstEnv(l, "\\end{", 0).Some?
    ensures Step(st, lines, i, l, dir, fileExists) == FrameLine(st, lines, i, l, dir, fileExists)
  {
    if FirstEnv(l, "\\begin{", 0).Some? {
      BeginEnvNoDirective(l);
    } else {
      EndEnvNoDirective(l);
    }
    StepInFrame(st, lines, i, l, dir, fileExists);
  }

  /** A line opening a recognised environment is none of the directives. */
  lemma BeginEnvNoDirective(l: string)
    requires FirstEnv(l, "\\begin{", 0).Some?
    ensures !Directive(l)
  {
    var m := FirstEnv(l, "\\begin{", 0).value;
    EnvInitials(m);
    var p := "\\begin{" + EnvTypes[m];
    assert l[..|p|] == p;
    assert l[0] == '\\' && l[1] == 'b' && l[7] == EnvTypes[m][0];
    Differs(l, "\\begin{center}", 7);
    Differs(l, "\\end{center}", 1);
    Differs(l, "\\begin{figure}", 7);
    Differs(l, "\\end{figure}", 1);
    Differs(l, "\\title", 1);
    Differs(l, "%", 0);
    Differs(l, "\\end{document}", 1);
    Differs(l, "\\section", 1);
    Differs(l, "\\subsection", 1);
    Differs(l, "\\begin{frame}", 7);
    Differs(l, "\\end{frame}", 1);
  }

  /** A line closing a recognised environment is none of the directives. */
  lemma EndEnvNoDirective(l: string)
    requires FirstEnv(l, "\\end{", 0).Some?
    ensures !Directive(l)
  {
    var m := FirstEnv(l, "\\end{", 0).value;
    EnvInitials(m);
    var p := "\\end{" + EnvTypes[m];
    assert l[..|p|] == p;
    assert l[0] == '\\' && l[1] == 'e' && l[5] == EnvTypes[m][0];
    Differs(l, "\\begin{center}", 1);
    Differs(l, "\\end{center}", 5);
    Differs(l, "\\begin{figure}", 1);
    Differs(l, "\\end{figure}", 5);
    Differs(l, "\\title", 1);
    Differs(l, "%", 0);
    Differs(l, "\\end{document}", 5);
    Differs(l, "\\section", 1);
    Differs(l, "\\subsection", 1);
    Differs(l, "\\begin{frame}", 1);
    Differs(l, "\\end{frame}", 5);
  }

  /**
   * `\begin{env}` for a recognised environment opens an Org block one level
   * below the current one: four lines, the first a heading tagged with the
   * Org environment (`prop`, `prop*`, `thm*` and `thm` become `theorem`), the
   * third naming it; the list indentation restarts at 0.
   */
  lemma EnvOpens(lines: seq<string>, i: nat, l: string, indent: int, level: int, dir: string, fileExists: string -> bool, j: nat)
    requires FirstEnv(l, "\\begin{", 0) == Some(j)
    ensures FrameEffect(lines, i, l, indent, level, dir, fileExists).Ok?
    ensures var env, e := OrgEnv(EnvTypes[j]), FrameEffect(lines, i, l, indent, level, dir, fileExists).value;
      env in ["block", "theorem", "proof"]
      && e.level == level + 1 && e.indent == 0 && |e.added| == 4
      && e.added[0] == Repeat('*', level + 1) + " " + EnvTitle(l, env) + " :B_" + env + ":"
      && e.added[2] == ":BEAMER_env: " + env
  {
  }

  /**
   * `\end{env}` for a recognised environment goes one level back up and
   * appends the closing block for that level exactly when the lookahead asks
   * for it.
   */
  lemma EnvCloses(lines: seq<string>, i: nat, l: string, indent: int, level: int, dir: string, fileExists: string -> bool)
    requires FirstEnv(l, "\\end{", 0).Some?
    ensures FrameEffect(lines, i, l, indent, level, dir, fileExists) ==
      Ok(Effect(if ClosingNeeded(lines, i) then ClosingBlock(level - 1) else [], indent, level - 1))
  {
    var m := FirstEnv(l, "\\end{", 0).value;
    var p := "\\end{" + EnvTypes[m];
    assert l[..|p|] == p;
    assert l[1] == p[1];
    NoEnvAt(l, "\\begin{", 1);
  }

  /**
   * A frame line with exactly two `\includegraphics` (and no environment
   * command) writes the two image columns, then the closing block when the
   * lookahead asks for it; a crash of the image handler is the step's crash.
   */
  lemma TwoImagesLine(lines: seq<string>, i: nat, l: string, indent: int, level: int, dir: string, fileExists: string -> bool)
    requires FirstEnv(l, "\\begin{", 0).None? && FirstEnv(l, "\\end{", 0).None?
    requires Count(l, IncludeGraphics) == 2
    ensures FrameEffect(lines, i, l, indent, level, dir, fileExists).Err? <==> TwoImages(l, level).Err?
    ensures TwoImages(l, level).Ok? ==>
      FrameEffect(lines, i, l, indent, level, dir, fileExists) == Ok(Effect(TwoImages(l, level).value + Closing(lines, i, level), indent, level))
  {
  }

  /** A frame line with one `\includegraphics` writes what the graphics handler returns. */
  lemma GraphicLine(lines: seq<string>, i: nat, l: string, indent: int, level: int, dir: string, fileExists: string -> bool)
    requires FirstEnv(l, "\\begin{", 0).None? && FirstEnv(l, "\\end{", 0).None?
    requires Count(l, IncludeGraphics) != 2 && Contains(l, IncludeGraphics)
    ensures FrameEffect(lines, i, l, indent, level, dir, fileExists).Err? <==> Graphics(l, indent, dir, fileExists).Err?
    ensures Graphics(l, indent, dir, fileExists).Ok? ==>
      FrameEffect(lines, i, l, indent, level, dir, fileExists) == Ok(Effect(Graphics(l, indent, dir, fileExists).value, indent, level))
  {
  }

  /**
   * Any other frame line is copied after two spaces per list level (none at
   * level 0 or below).
   */
  lemma FrameText(lines: seq<string>, i: nat, l: string, indent: int, level: int, dir: string, fileExists: string -> bool)
    requires FirstEnv(l, "\\begin{", 0).None? && FirstEnv(l, "\\end{", 0).None? && !Contains(l, IncludeGraphics)
    requires !StartsWith(l, "\\begin{itemize}") && !StartsWith(l, "\\begin{enumerate}")
    requires !StartsWith(l, "\\end{itemize}") && !StartsWith(l, "\\end{enumerate}")
    requires !StartsWith(l, "\\item")
    ensures FrameEffect(lines, i, l, indent, level, dir, fileExists) == Ok(Effect([Repeat(' ', 2 * indent) + l], indent, level))
  {
    NoGraphics(l);
    assert indent * 2 == 2 * indent;
    if indent <= 0 {
      EmptyLeft(Repeat(' ', 2 * indent), l);
    }
  }

  /** `header_level_count` has been assigned whenever the pass is inside a frame. */
  predicate LevelAssigned(st: State) {
    st.inFrame ==> st.levelBound
  }

  /**
   * A step only appends to the output, never clears the header flag or the
   * assignment of `header_level_count`, and keeps that local assigned while
   * inside a frame.
   */
  lemma StepKeeps(st: State, lines: seq<string>, i: nat, l: string, dir: string, fileExists: string -> bool)
    requires Step(st, lines, i, l, dir, fileExists).Ok?
    ensures var s := Step(st, lines, i, l, dir, fileExists).value;
      st.out <= s.out && (st.headerRemoved ==> s.headerRemoved) && (st.levelBound ==> s.levelBound)
      && (LevelAssigned(st) ==> LevelAssigned(s))
  {
  }

  /** What `StepKeeps` says of one step holds of any run of steps. */
  lemma {:induction false} RunKeeps(st: State, lines: seq<string>, norm: seq<string>, i: nat, n: nat, dir: string,
                                    fileExists: string -> bool)
    requires i <= n <= |norm| && Run(st, lines, norm, i, n, dir, fileExists).Ok?
    ensures var s := Run(st, lines, norm, i, n, dir, fileExists).value;
      st.out <= s.out && (st.headerRemoved ==> s.headerRemoved) && (st.levelBound ==> s.levelBound)
      && (LevelAssigned(st) ==> LevelAssigned(s))
    decreases n - i
  {
    if i < n {
      StepKeeps(st, lines, i, norm[i], dir, fileExists);
      var next := Step(st, lines, i, norm[i], dir, fileExists).value;
      RunKeeps(next, lines, norm, i + 1, n, dir, fileExists);
    }
  }

  /**
   * `header_level_count` is never read before it is assigned: every state the
   * pass reaches from the start has it assigned while inside a frame, and
   * only frame content reads it.
   */
  lemma LevelNeverUnbound(lines: seq<string>, norm: seq<string>, n: nat, dir: string, fileExists: string -> bool)
    requires n <= |norm| && Run(Init, lines, norm, 0, n, dir, fileExists).Ok?
    ensures LevelAssigned(Run(Init, lines, norm, 0, n, dir, fileExists).value)
  {
    RunKeeps(Init, lines, norm, 0, n, dir, fileExists);
  }

  /** The first `{` of a frame line is the one of `\begin{frame}`. */
  lemma FrameFirstBrace(rest: string)
    ensures Find("\\begin{frame}" + rest, "{") == 6
  {
    var l := "\\begin{frame}" + rest;
    var head := "\\begin{frame}";
    forall j | 0 <= j < 6 ensures !OccursAt(l, "{", j) {
      assert l[j] == head[j];
      assert l[j..j + 1] == [l[j]];
    }
    assert l[6..7] == "{";
    FindAt(l, "{", 6);
  }

  /** In `\begin{frame}{t}`, the `{` after the first is the one opening `t`. */
  lemma FrameSecondBrace(t: string)
    ensures FindFrom("\\begin{frame}{" + t + "}", "{", 7) == 13
  {
    var l := "\\begin{frame}{" + t + "}";
    var head := "\\begin{frame}{";
    forall j | 7 <= j < 13 ensures !OccursAt(l, "{", j) {
      assert l[j] == head[j];
      assert l[j..j + 1] == [l[j]];
    }
    assert l[13..14] == "{";
    FindFromAt(l, "{", 7, 13);
  }

  /** `\begin{frame}{t}` is headed by `t`, stripped. */
  lemma FrameTitleOf(t: string)
    ensures FrameTitle("\\begin{frame}{" + t + "}") == Strip(t)
  {
    var l := "\\begin{frame}{" + t + "}";
    assert l == "\\begin{frame}" + ("{" + t + "}");
    FrameFirstBrace("{" + t + "}");
    FrameSecondBrace(t);
    assert l[|l| - 1..] == "}";
    RFindAt(l, "}", |l| - 1);
    assert l[14..|l| - 1] == t;
    StripUnchanged([]);
  }

  /** A frame line with no `{` after that of `\begin{frame}` has no second `{`. */
  lemma FrameNoSecondBrace(rest: string)
    requires forall k :: 0 <= k < |rest| ==> rest[k] != '{'
    ensures FindFrom("\\begin{frame}" + rest, "{", 7) == -1
  {
    FrameHeadTail();
    FindCharAbsentConcat("\\begin{frame}", rest, '{', 7);
  }

  /** `\begin{frame}` has no `{` after its seventh character. */
  lemma FrameHeadTail()
    ensures forall j :: 7 <= j < |"\\begin{frame}"| ==> "\\begin{frame}"[j] != '{'
  {
    var head := "\\begin{frame}";
    assert head[7..] == "frame}";
    forall j | 7 <= j < |head| ensures head[j] != '{' {
      assert head[j] == head[7..][j - 7];
    }
  }

  /** Stripping a text that starts with `\begin{frame` keeps that start. */
  lemma StripKeepsFrame(x: string)
    requires |x| >= 12 && x[..12] == "\\begin{frame"
    ensures StartsWith(Strip(x), "\\begin{frame")
  {
    assert LStrip(x) == x;
    RStripKeeps(x, 11);
    assert RStrip(x)[..12] == x[..12];
  }

  /**
   * A frame line with no second `{` gets a title that starts with the text
   * of the line itself: the missing brace makes the slice start at 0, so
   * `\begin{frame}` alone is headed `\begin{frame`.
   */
  lemma FrameWithoutTitle(rest: string)
    requires forall k :: 0 <= k < |rest| ==> rest[k] != '{'
    ensures StartsWith(FrameTitle("\\begin{frame}" + rest), "\\begin{frame")
    ensures rest == [] ==> FrameTitle("\\begin{frame}" + rest) == "\\begin{frame"
  {
    var l := "\\begin{frame}" + rest;
    FrameFirstBrace(rest);
    FrameNoSecondBrace(rest);
    assert l[12..13] == "}";
    assert OccursAt(l, "}", 12);
    RFindLast(l, "}");
    var end := RFind(l, "}");
    assert 12 <= end;
    var x := l[..end];
    assert FrameTitle(l) == Strip(x);
    assert x[..12] == "\\begin{frame";
    StripKeepsFrame(x);
    if rest == [] {
      RFindAt(l, "}", 12);
      StripUnchanged(x);
    }
  }

  /**
   * Under a `\section` (section level 1), `\begin{frame}{t}` is a level-2
   * heading `** t`, the same depth as before any section.
   */
  lemma FrameUnderSection(st: State, lines: seq<string>, i: nat, t: string, dir: string, fileExists: string -> bool)
    requires st.headerRemoved && st.sectionLevel <= 1
    ensures Step(st, lines, i, "\\begin{frame}{" + t + "}", dir, fileExists) ==
      Ok(st.(out := st.out + ["** " + Strip(t)], inFrame := true, indent := 0, level := 2, levelBound := true))
  {
    var l := "\\begin{frame}{" + t + "}";
    assert l[..13] == "\\begin{frame}";
    FrameHeading(st, lines, i, l, dir, fileExists);
    FrameTitleOf(t);
    var stars := Repeat('*', Max(st.sectionLevel, 1) + 1);
    assert stars == "**";
    assert stars + " " == "** ";
  }

  /**
   * The loop body for a line inside a frame (lines 330-401). `indent` and
   * `level` are `indent_level` and `header_level_count`; their new values are
   * returned, and the lines written are appended to `org`.
   */
  method FrameContent(org: OrgOutput, lines: seq<string>, i: nat, l: string, indent: int, level: int,
                      dir: string, fileExists: string -> bool)
    returns (r: Result<(int, int)>)
    modifies org
    ensures var e := FrameEffect(lines, i, l, indent, level, dir, fileExists);
      match r
      case Err(f) => e == Err(f)
      case Ok(v) => e.Ok? && org.lines == old(org.lines) + e.value.added && v == (e.value.indent, e.value.level)
  {
    ghost var start := org.lines;
    match FirstEnv(l, "\\begin{", 0) {
      case Some(j) =>
        var env := OrgEnv(EnvTypes[j]);
        EnvHeading(org, l, env, level + 1);
        return Ok((0, level + 1));
      case None =>
    }
    if FirstEnv(l, "\\end{", 0).Some? {
      AddClosingHeadingIfNeeded(org, lines, i, level - 1);
      return Ok((indent, level - 1));
    }
    if Count(l, IncludeGraphics) == 2 {
      var images := ProcessTwoImagesOnSameLine(l, level);
      if images.Err? {
        return Err(images.fault);
      }
      org.Extend(images.value);
      AddClosingHeadingIfNeeded(org, lines, i, level);
      assert org.lines == start + images.value + Closing(lines, i, level);
      ConcatAssoc(start, images.value, Closing(lines, i, level));
      return Ok((indent, level));
    }
    if Contains(l, IncludeGraphics) {
      var graphics := ProcessGraphics(l, indent, dir, fileExists);
      if graphics.Err? {
        return Err(graphics.fault);
      }
      org.Extend(graphics.value);
      return Ok((indent, level));
    }
    if StartsWith(l, "\\begin{itemize}") || StartsWith(l, "\\begin{enumerate}") {
      return Ok((indent + 1, level));
    } else if StartsWith(l, "\\end{itemize}") || StartsWith(l, "\\end{enumerate}") {
      return Ok((indent - 1, level));
    }
    if StartsWith(l, "\\item") {
      var indentSpaces := Repeat(' ', (indent - 1) * 2);
      org.Append(indentSpaces + "- " + Strip(l[5..]));
    } else if indent > 0 {
      var indentSpaces := Repeat(' ', indent * 2);
      org.Append(indentSpaces + l);
    } else {
      org.Append(l);
    }
    return Ok((indent, level));
  }

  /**
   * Lines 339-348: the heading of a Beamer block, titled by the last brace
   * group of the line when it has exactly two, and its properties drawer.
   */
  method EnvHeading(org: OrgOutput, l: string, env: string, newLevel: int)
    modifies org
    ensures org.lines == old(org.lines) + EnvBlock(newLevel, EnvTitle(l, env), env)
  {
    var titleName := Capitalize(env);
    if Count(l, "{") == 2 {
      titleName := PySlice(l, RFind(l, "{") + 1, RFind(l, "}"));
    }
    org.Extend([Repeat('*', newLevel) + " " + titleName + " :B_" + env + ":"]);
    org.Extend([":PROPERTIES:", ":BEAMER_env: " + env, ":END:"]);
  }

  /** The locals of the loop that lines 294-406 update. */
  datatype Locals = Locals(sectionLevel: int, inFrame: bool, indent: int, level: int)

  /**
   * The loop body from line 294 on: comments, headings, frames and frame
   * content. `mid` is the state of the pass the call stands for.
   */
  method BodyLine(org: OrgOutput, lines: seq<string>, i: nat, l: string, sectionLevel: int, inFrame: bool,
                  indent: int, level: int, dir: string, fileExists: string -> bool, ghost mid: State)
    returns (r: Result<Locals>)
    requires mid.out == org.lines && mid.sectionLevel == sectionLevel && mid.inFrame == inFrame
    requires mid.indent == indent && mid.level == level
    modifies org
    ensures r.Err? ==> Body(mid, lines, i, l, dir, fileExists) == Err(r.fault)
    ensures r.Ok? ==> Body(mid, lines, i, l, dir, fileExists).Ok?
    ensures r.Ok? ==> var s := Body(mid, lines, i, l, dir, fileExists).value;
      s == mid.(out := org.lines, sectionLevel := r.value.sectionLevel, inFrame := r.value.inFrame,
                indent := r.value.indent, level := r.value.level, levelBound := s.levelBound)
  {
    if StartsWith(l, "%") || StartsWith(l, "\\end{document}") {
      return Ok(Locals(sectionLevel, inFrame, indent, level));
    }
    if StartsWith(l, "\\section") || StartsWith(l, "\\subsection") {
      var heading := ProcessSection(l).value;
      org.Append(heading.line);
      return Ok(Locals(heading.level, inFrame, indent, level));
    }
    if StartsWith(l, "\\begin{frame}") {
      var frameTitle := FrameTitle(l);
      var headerLevelCount := Max(sectionLevel, 1) + 1;
      org.Append(Repeat('*', headerLevelCount) + " " + frameTitle);
      return Ok(Locals(sectionLevel, true, 0, headerLevelCount));
    } else if StartsWith(l, "\\end{frame}") {
      org.Append("");
      return Ok(Locals(sectionLevel, false, indent, level));
    }
    if inFrame {
      var result := FrameContent(org, lines, i, l, indent, level, dir, fileExists);
      if result.Err? {
        return Err(result.fault);
      }
      return Ok(Locals(sectionLevel, inFrame, result.value.0, result.value.1));
    } else {
      // The re-check of `%` and `\end{document}` at line 404 cannot fire here.
      org.Append(l);
      return Ok(Locals(sectionLevel, inFrame, indent, level));
    }
  }

  /** After the header, a line that is not skipped or a title is handled by `Body`. */
  lemma StepIsBody(st: State, lines: seq<string>, i: nat, l: string, dir: string, fileExists: string -> bool)
    requires st.headerRemoved
    requires !StartsWith(l, "\\begin{center}") && !StartsWith(l, "\\end{center}")
    requires !StartsWith(l, "\\begin{figure}") && !StartsWith(l, "\\end{figure}") && !StartsWith(l, "\\title")
    ensures Step(st, lines, i, l, dir, fileExists) == Body(st, lines, i, l, dir, fileExists)
  {
  }

  /** The first `\section` writes the header, then is handled by `Body`. */
  lemma HeaderThenBody(st: State, lines: seq<string>, i: nat, l: string, dir: string, fileExists: string -> bool)
    requires !st.headerRemoved && StartsWith(l, "\\section")
    ensures Step(st, lines, i, l, dir, fileExists) ==
      Body(st.(headerRemoved := true, out := st.out + HeaderBlock(st.title)), lines, i, l, dir, fileExists)
  {
    PrefixClash(l, "\\section", "\\begin{center}", 1);
    PrefixClash(l, "\\section", "\\end{center}", 1);
    PrefixClash(l, "\\section", "\\begin{figure}", 1);
    PrefixClash(l, "\\section", "\\end{figure}", 1);
    PrefixClash(l, "\\section", "\\title", 1);
  }

  /** A step that succeeds hands the rest of the run its new state. */
  lemma RunStep(st: State, lines: seq<string>, norm: seq<string>, i: nat, n: nat, dir: string,
                fileExists: string -> bool, next: State)
    requires i < n <= |norm| && Step(st, lines, i, norm[i], dir, fileExists) == Ok(next)
    ensures Run(st, lines, norm, i, n, dir, fileExists) == Run(next, lines, norm, i + 1, n, dir, fileExists)
  {
  }

  /**
   * `convert_latex_to_org`: the equation pre-pass, then one pass over the
   * lines that updates the local variables of the source and appends to the
   * output list. A crash of a handler ends the pass.
   */
  method ConvertLatexToOrg(latexInput: seq<string>, dir: string, fileExists: string -> bool)
    returns (r: Result<seq<string>>)
    ensures r == Convert(latexInput, dir, fileExists)
  {
    var processed := ProcessEquations(latexInput);
    if processed.Err? {
      return Err(processed.fault);
    }
    var lines := processed.value;
    ghost var norm := Normalized(lines);
    var org := new OrgOutput();
    var title := "";
    var sectionLevel := 0;
    var inFrame := false;
    var indentLevel := 0;
    var headerRemoved := false;
    // The source assigns `header_level_count` at the first frame only;
    // `LevelNeverUnbound` shows it is never read before then.
    var headerLevelCount := 0;
    ghost var levelBound := false;
    for i := 0 to |lines|
      invariant Run(Init, lines, norm, 0, |lines|, dir, fileExists) ==
        Run(State(org.lines, title, sectionLevel, inFrame, indentLevel, headerRemoved, headerLevelCount, levelBound),
            lines, norm, i, |lines|, dir, fileExists)
    {
      ghost var st := State(org.lines, title, sectionLevel, inFrame, indentLevel, headerRemoved, headerLevelCount,
                            levelBound);
      var strippedLine := FormatText(Strip(lines[i]));
      assert strippedLine == norm[i];
      if StartsWith(strippedLine, "\\begin{center}") || StartsWith(strippedLine, "\\end{center}") {
        RunStep(st, lines, norm, i, |lines|, dir, fileExists, st);
        continue;
      }
      if StartsWith(strippedLine, "\\begin{figure}") || StartsWith(strippedLine, "\\end{figure}") {
        RunStep(st, lines, norm, i, |lines|, dir, fileExists, st);
        continue;
      }
      if StartsWith(strippedLine, "\\title") {
        title := ExtractTitle(strippedLine, "Untitled Presentation");
        RunStep(st, lines, norm, i, |lines|, dir, fileExists, st.(title := title));
        continue;
      }
      ghost var mid := st;
      if !headerRemoved {
        if StartsWith(strippedLine, "\\section") {
          headerRemoved := true;
          ProcessHeader(org, title);
          mid := st.(headerRemoved := true, out := org.lines);
        } else {
          RunStep(st, lines, norm, i, |lines|, dir, fileExists, st);
          continue;
        }
      }
      if st.headerRemoved {
        StepIsBody(st, lines, i, strippedLine, dir, fileExists);
      } else {
        HeaderThenBody(st, lines, i, strippedLine, dir, fileExists);
      }
      var result := BodyLine(org, lines, i, strippedLine, sectionLevel, inFrame, indentLevel, headerLevelCount,
                             dir, fileExists, mid);
      if result.Err? {
        return Err(result.fault);
      }
      sectionLevel, inFrame, indentLevel, headerLevelCount :=
        result.value.sectionLevel, result.value.inFrame, result.value.indent, result.value.level;
      levelBound := Body(mid, lines, i, strippedLine, dir, fileExists).value.levelBound;
      RunStep(st, lines, norm, i, |lines|, dir, fileExists, Body(mid, lines, i, strippedLine, dir, fileExists).value);
    }
    return Ok(org.lines);
  }
}
