/**
 * The heading helpers of the converter: `extract_title`, `process_section`
 * and `process_header`.
 */
module Headings {
  import opened Wrappers
  import opened Text
  import opened Org

  /**
   * `extract_title`: the text between the first `{` and the last `}`,
   * stripped, or `fallback` when the last `}` does not come after the first `{`.
   */
  function ExtractTitle(command: string, fallback: string): string {
    var start := Find(command, "{") + 1;
    var end := RFind(command, "}");
    if start < end then Strip(PySlice(command, start, end)) else fallback
  }

  /**
   * For `head{t}tail` where `head` has no `{` and `tail` no `}`, the title is
   * `t` stripped; when `t` is empty it is the fallback (a blank `t` gives the
   * empty title, not the fallback).
   */
  lemma TitleOfCommand(head: string, t: string, tail: string, fallback: string)
    requires forall k :: 0 <= k < |head| ==> head[k] != '{'
    requires forall k :: 0 <= k < |tail| ==> tail[k] != '}'
    ensures ExtractTitle(head + "{" + t + "}" + tail, fallback) == if t == [] then fallback else Strip(t)
  {
    var c := head + "{" + t + "}" + tail;
    var n := |head|;
    var m := n + 1 + |t|;
    assert c[n] == '{' && c[m] == '}';
    forall j | 0 <= j < n ensures !OccursAt(c, "{", j) {
      assert c[j] == head[j];
    }
    FindAt(c, "{", n);
    forall j | m < j ensures !OccursAt(c, "}", j) {
      if j < |c| {
        assert c[j] == tail[j - m - 1];
      }
    }
    RFindAt(c, "}", m);
    assert c[n + 1..m] == t;
  }

  /** Without any `}` the fallback is returned. */
  lemma TitleWithoutClose(command: string, fallback: string)
    requires forall k :: 0 <= k < |command| ==> command[k] != '}'
    ensures ExtractTitle(command, fallback) == fallback
  {
    assert RFind(command, "}") == -1 by {
      forall j ensures !OccursAt(command, "}", j) {
        if 0 <= j < |command| {
          assert command[j..j + 1] == [command[j]];
        }
      }
    }
  }

  /** A section heading line and the section level it sets. */
  datatype Heading = Heading(line: string, level: nat)

  /** The name between the first `{` and the first `}`, with Python slicing. */
  function SectionName(l: string): string {
    PySlice(l, Find(l, "{") + 1, Find(l, "}"))
  }

  /**
   * `process_section`: `\section` gives a level-1 heading `* name`,
   * `\subsection` a level-2 heading `** name`, anything else nothing.
   */
  function ProcessSection(l: string): (r: Option<Heading>)
    ensures r.Some? <==> StartsWith(l, "\\section") || StartsWith(l, "\\subsection")
    ensures r.Some? ==> (r.value.level == 1 <==> StartsWith(l, "\\section"))
    ensures r.Some? ==> (r.value.level == 2 <==> !StartsWith(l, "\\section"))
    ensures r.Some? ==> r.value.line == Repeat('*', r.value.level) + " " + SectionName(l)
  {
    if StartsWith(l, "\\section") then
      assert Repeat('*', 1) == "*";
      Some(Heading("* " + SectionName(l), 1))
    else if StartsWith(l, "\\subsection") then
      assert Repeat('*', 2) == "**";
      Some(Heading("** " + SectionName(l), 2))
    else None
  }

  /** For `head{name}tail` with no brace in `head` and no `}` in `name`, the name is `name`. */
  lemma SectionNameOf(head: string, name: string, tail: string)
    requires forall k :: 0 <= k < |head| ==> head[k] != '{' && head[k] != '}'
    requires forall k :: 0 <= k < |name| ==> name[k] != '}'
    ensures SectionName(head + "{" + name + "}" + tail) == name
  {
    var c := head + "{" + name + "}" + tail;
    var n := |head|;
    var m := n + 1 + |name|;
    assert c[n] == '{' && c[m] == '}';
    forall j | 0 <= j < n ensures !OccursAt(c, "{", j) {
      assert c[j] == head[j];
    }
    FindAt(c, "{", n);
    forall j | 0 <= j < m ensures !OccursAt(c, "}", j) {
      if j < n {
        assert c[j] == head[j];
      } else if j > n {
        assert c[j] == name[j - n - 1];
      }
    }
    FindAt(c, "}", m);
    assert c[n + 1..m] == name;
  }

  /** The ten fixed lines that follow `#+TITLE:` in the header. */
  const HeaderOptions: seq<string> := [
    "#+filetags: :Presentation:",
    "#+BEAMER_THEME: CambridgeUS",
    "#+BEAMER_COLOR_THEME: default",
    "#+LANGUAGE:  en",
    "#+LaTeX_CLASS_OPTIONS: [presentation]",
    "#+EXCLUDE_TAGS: noexport",
    "#+COLUMNS: %40ITEM %10BEAMER_env(Env) %9BEAMER_envargs(Env Args) %4BEAMER_col(Col) %10BEAMER_extra(Extra)",
    "#+OPTIONS:   H:2 num:t toc:t \\n:nil @:t ::t |:t ^:t -:t f:t *:t <:t",
    "#+OPTIONS:   TeX:t LaTeX:t skip:nil d:nil todo:t pri:nil tags:not-in-toc",
    "#+LATEX: \\AtBeginSection{\\frame{\\sectionpage}}"
  ]

  /** The Org header block for a deck titled `title`. */
  function HeaderBlock(title: string): (r: seq<string>)
    ensures |r| == 11 && r[0] == "#+TITLE: " + title && r[1..] == HeaderOptions
  {
    ["#+TITLE: " + title] + HeaderOptions
  }

  /** Only the first header line depends on the title. */
  lemma HeaderFixed(a: string, b: string)
    ensures HeaderBlock(a)[1..] == HeaderBlock(b)[1..]
    ensures HeaderBlock(a) == HeaderBlock(b) <==> a == b
  {
    if HeaderBlock(a) == HeaderBlock(b) {
      var pa, pb := HeaderBlock(a)[0], HeaderBlock(b)[0];
      assert pa[9..] == a && pb[9..] == b;
    }
  }

  /** `process_header`: appends the eleven header lines to `org`. */
  method ProcessHeader(org: OrgOutput, title: string)
    modifies org
    ensures org.lines == old(org.lines) + HeaderBlock(title)
  {
    org.Append("#+TITLE: " + title);
    org.Extend(HeaderOptions);
  }
}
