# beamer2org in Dafny

A model of `beamer2org.py`, a converter from a LaTeX Beamer slide deck to an
Org-mode outline, with proofs about what the conversion produces.

The converter works line by line:

- **Equation pre-pass** (`process_equations`, module `EquationPass`). It
  strips every line. Then it re-flows `\[ .. \]`, `\( .. \)` and `$$ .. $$`
  blocks. The opening line is dropped. The first content line gets the start
  token in front. The closing line is dropped, and its end token goes onto
  the previous output line.
- **Main pass** (`convert_latex_to_org`, module `Converter`). It strips each
  line and runs the inline formatter on it (`format_text`, module
  `InlineFormat`). Then the line is handled as follows:
  - centre and figure commands are dropped;
  - `\title` sets the title;
  - everything before the first `\section` is skipped;
  - the first `\section` writes the fixed Org header (module `Headings`);
  - sections and subsections become `*` and `**` headings;
  - frames become headings one level below the current section;
  - inside a frame, blocks (`block`, `theorem`, `proof`, `prop`, `prop*`,
    `thm*`, `thm`) become Beamer block headings. Single images and image
    pairs go through the graphics handlers (module `Images`). Lists become
    indented `- ` items;
  - every other line is copied.
- **Closing heading** (`add_closing_heading_if_needed`, module `Lookahead`).
  After a block closes or an image pair is written, this lookahead may add an
  empty `ignoreheading` heading to get back to the frame level.

Each routine that updates variables step by step is a `method` with the
source's loop. Each such method is proved equal to a specification function
(`Format`, `Equations`, `Graphics`, `TwoImages`, `Convert`). The properties
are lemmas about those functions.

The list that the source passes by reference to `process_header` and
`add_closing_heading_if_needed` is the class `Org.OrgOutput`.

A Python exception is the error value `Err(fault)` of `Wrappers.Result`:
- `LastOfEmptyList` is the `IndexError` of `org_output[-1]`;
- `FirstWordOfBlank` is the `IndexError` of `.split()[0]` on blank text.

The model does not require these inputs away.

`os.path.exists` is a parameter `fileExists: string -> bool`. The directory of
the deck is a parameter `dir`.

Quirks of the code that the model keeps, with a lemma that shows each one:

- `\begin{frame}` without a second `{` is headed by text taken from the
  command itself (`\begin{frame}` alone gives the title `\begin{frame`).
  The reason is that `find` returns -1, so the title slice starts at 0
  (`FrameWithoutTitle`).
- A one-line `\[ x \]` opens an equation. The closing token on that same line
  is not seen, so the following lines are swallowed as equation content
  (`EqOpenBlock`).
- The check for `%` and `\end{document}` at line 404 can never fire, since
  line 295 has already dropped those lines, in a frame or not (`RecheckDead`).
- `add_closing_heading_if_needed` does not stop at `\begin{thm}`, even though
  `thm` is one of the recognised environments. A `\begin{thm}` line is no
  stopper (`ThmNotStopper`), so it gets the closing heading in front of it
  (`ThmGetsClosing`).

## Model

| member | source | states |
|---|---|---|
| InlineFormat.FormatText | beamer2org.py:6-41 | the nested loops of `format_text` compute `Format`: passes repeated until one pass makes no replacement |
| InlineFormat.FormatKeeps | beamer2org.py:24-41 | every `\textbf{X}`, `\uline{X}`, `\italic{X}` with brace-free X in the input comes out as `*X*`, `_X_`, `/X/` somewhere in the result, X without one trailing space |
| InlineFormat.ReplaceKeeps | beamer2org.py:30-38 | one replacement anywhere keeps a given match in the line, or turns it into its emphasis, and keeps an emphasis already made |
| InlineFormat.MatchesDisjoint | beamer2org.py:17-19 | two matches of the three patterns that overlap are the same match, since the content holds no brace |
| InlineFormat.FormatIsClean | beamer2org.py:24-41 | after formatting, none of the `\textbf{..}`, `\uline{..}`, `\italic{..}` patterns (brace-free content) matches anywhere |
| InlineFormat.FormatIdempotent | beamer2org.py:6-41 | formatting an already formatted line changes nothing |
| InlineFormat.FormatClean | beamer2org.py:22-41 | a line with no match of any pattern is returned unchanged |
| InlineFormat.SearchFrom | beamer2org.py:27-29 | `re.search` returns the leftmost match: opener, brace-free content, closing brace; none before it; none at all when it returns nothing |
| InlineFormat.SearchFinds | beamer2org.py:27-29 | any match with no match to its left is the one `re.search` returns |
| InlineFormat.Replace | beamer2org.py:30-38 | one replacement keeps the text before and after the match and shortens the line by the opener length minus one |
| InlineFormat.ReplaceMatch | beamer2org.py:30-38 | the body of the inner loop computes `Replace`: one trailing space of the content moves after the closing marker |
| InlineFormat.ExhaustStyle | beamer2org.py:26-39 | the inner `while re.search` loop computes `Exhaust`, and reports a replacement exactly when the line changed |
| InlineFormat.Wrapped | beamer2org.py:33-37 | the replacement is two characters longer than the captured content |
| InlineFormat.Exhaust | beamer2org.py:27-39 | the inner loop ends with no match of its pattern left; it changes the line exactly when there was a match, and then shortens it |
| InlineFormat.Pass | beamer2org.py:25-39 | one pass changes the line exactly when some pattern matches; a changing pass shortens it, which bounds the outer loop |
| EquationPass.ProcessEquations | beamer2org.py:93-133 | the loop of `process_equations` computes `Equations`, the crash included |
| EquationPass.OpeningFrom | beamer2org.py:124-129 | the start delimiter chosen occurs in the line, and none before it in dictionary order does; none is chosen exactly when no start delimiter occurs |
| EquationPass.EquationsLength | beamer2org.py:93-133 | the pre-pass never yields more lines than it reads |
| EquationPass.EqPassThrough | beamer2org.py:122-131 | outside an equation, lines without a start delimiter come out stripped, one for one, in order |
| EquationPass.EqBody | beamer2org.py:115-121 | inside an equation whose first line is out, lines without the end token come out stripped, in order |
| EquationPass.EqOpenBlock | beamer2org.py:123-129 | an opening `\[` line is dropped; the next line gets `\[ ` in front; the equation stays open, also after a one-line `\[ x \]` |
| EquationPass.EqClose | beamer2org.py:110-114 | the end token is appended to the last output line, and with no output yet the pass crashes |
| EquationPass.BlockLines | beamer2org.py:110-121 | a closed block yields one line per content line, `\[ ` on the first, ` \]` on the last, the earlier output kept |
| EquationPass.EqBlock | beamer2org.py:107-131 | opening line, N >= 1 content lines, closing line: exactly the closed block, and the equation is closed |
| EquationPass.EqEmptyBlock | beamer2org.py:110-114 | an empty `\[ \]` block puts ` \]` on whatever line was output before it, or crashes when there is none |
| EquationPass.EqRunAppend | beamer2org.py:107-131 | the pass over two consecutive runs of lines is the pass over the first, continued over the second |
| Headings.TitleOfCommand | beamer2org.py:175-188 | for `head{t}tail` with no `{` in `head` and no `}` in `tail`, the title is `t` stripped; an empty `t` gives the fallback |
| Headings.TitleWithoutClose | beamer2org.py:186-188 | without any `}` the fallback title is returned |
| Headings.ProcessSection | beamer2org.py:139-146 | a heading exactly for `\section` (level 1, `* name`) and `\subsection` (level 2, `** name`), nothing otherwise |
| Headings.SectionNameOf | beamer2org.py:139-145 | the section name is the text between the braces |
| Headings.HeaderBlock | beamer2org.py:191-204 | eleven lines: `#+TITLE: ` and the title, then the ten fixed option lines |
| Headings.HeaderFixed | beamer2org.py:191-204 | only the first header line depends on the title, and different titles give different headers |
| Headings.ProcessHeader | beamer2org.py:191-204 | appends exactly the header block to the output list |
| Lookahead.ScanFrom | beamer2org.py:153-158 | the scan stops at the first later line that is neither blank nor a comment |
| Lookahead.ClosingNeededIff | beamer2org.py:150-173 | the closing heading is added exactly when the first later non-blank, non-comment line does not end the frame, open one of the six special environments, or hold two `\includegraphics`; never when only blank and comment lines follow |
| Lookahead.ThmNotStopper | beamer2org.py:151-161 | a `\begin{thm}` line without two `\includegraphics` does not end the scan |
| Lookahead.ThmGetsClosing | beamer2org.py:150-173 | when `\begin{thm}` is the next line that is neither blank nor a comment, the closing heading is added |
| Lookahead.ClosingBlock | beamer2org.py:166-172 | four lines headed by an empty ignoreheading title one level below the given level |
| Lookahead.AddClosingHeadingIfNeeded | beamer2org.py:150-173 | earlier output untouched; the closing block appended exactly when the scan asks for it |
| Lookahead.StartsSpecialEnvScan | beamer2org.py:151-161 | the `any(...)` test over the six starters is the existential over them |
| Images.PathJoin | beamer2org.py:57-57 | an absolute name replaces the directory; otherwise the result starts with the directory and ends with the name |
| Images.FirstExistingFrom | beamer2org.py:59-66 | the chosen extension's file exists and none before it does; none chosen when no candidate exists |
| Images.FindImageFile | beamer2org.py:59-66 | the extension loop finds a file exactly when some candidate exists, and returns the name with the first existing extension |
| Images.Attr | beamer2org.py:74-84 | an option that does not occur adds nothing |
| Images.AttrMeaning | beamer2org.py:74-84 | an option that occurs adds its tag and the first word of its value, and crashes exactly when that value is blank |
| Images.OptionAttr | beamer2org.py:74-84 | one of the two option blocks computes `Attr` for its key and tag |
| Images.AttrsNone | beamer2org.py:73-84 | without `width=` and `height=` the attribute text is empty |
| Images.GraphicAttrs | beamer2org.py:73-84 | the width, then the height option, crashing on a blank value |
| Images.Pad | beamer2org.py:87-87 | two spaces per indent level, none at level 0 or below |
| Images.GraphicsNothing | beamer2org.py:52-70 | nothing is written for a line without `\includegraphics` or when no candidate file exists |
| Images.GraphicsChoosesFirstExisting | beamer2org.py:59-89 | with the first existing extension `j`, two lines indented by `2 * indent`: the attributes, then the link with extension `j`; a blank option value is a crash |
| Images.ProcessGraphics | beamer2org.py:50-91 | `process_graphics` computes `Graphics` |
| Images.NonBlankStripped | beamer2org.py:213-213 | the kept parts are non-blank and no more than the split parts |
| Images.TwoImagesSplit | beamer2org.py:212-213 | on a line with exactly two `\includegraphics`, the split gives three pieces and at most three survive the filter |
| Images.PngName | beamer2org.py:227-228 | the image path ends in `.png`, appended only when missing |
| Images.ColumnShape | beamer2org.py:218-239 | one column crashes exactly when its width text is blank; otherwise six lines, `Col left`/0.49 for the first image and `Col right`/0.48 for the second, ending in the image link |
| Images.TwoImagesShape | beamer2org.py:208-242 | nothing unless the line has exactly two non-blank parts; then a crash exactly when a width is blank, otherwise the twelve column lines |
| Images.ImageColumnLines | beamer2org.py:218-239 | the loop body computes `ImageColumn` for the `i`-th part |
| Images.ProcessTwoImagesOnSameLine | beamer2org.py:208-242 | `process_two_images_on_same_line`, loop and all, computes `TwoImages` |
| Converter.FirstEnv | beamer2org.py:332-333 | the environment chosen is the first in `env_types` order whose `\begin{`/`\end{` form starts the line; none when none does |
| Converter.Normalized | beamer2org.py:268-269 | each line is seen stripped and formatted, with no inline pattern left in it |
| Converter.RunSplit | beamer2org.py:267-406 | the pass over lines `i..n` is the pass to `k` continued from `k` |
| Converter.StepPreamble | beamer2org.py:280-291 | before the header, a non-section line sets the title when it is `\title`, and changes nothing else |
| Converter.PreambleSilent | beamer2org.py:267-291 | lines before the first `\section` never crash and produce no output; at most the title changes |
| Converter.HeaderAtFirstSection | beamer2org.py:286-303 | the first `\section` writes the header with the title seen so far, then `* name`, and sets section level 1 |
| Converter.ConvertPreamble | beamer2org.py:256-303 | up to and including the first `\section`, the output is exactly the header block and the section heading |
| Converter.DroppedLines | beamer2org.py:271-296 | `\title`, centre, figure, comment and `\end{document}` lines add no output |
| Converter.RecheckDead | beamer2org.py:294-296 | once the header is out, a `%` or `\end{document}` line leaves the whole state unchanged, so the re-check at lines 402-405 never fires |
| Converter.FrameHeading | beamer2org.py:311-322 | `\begin{frame}` writes a heading of `max(section_level, 1) + 1` stars, enters the frame, resets the indent, assigns `header_level_count` |
| Converter.FrameUnderSection | beamer2org.py:311-322 | under a `\section`, `\begin{frame}{t}` is the level-2 heading `** t` |
| Converter.FrameTitleOf | beamer2org.py:312-315 | `\begin{frame}{t}` is titled `t` stripped |
| Converter.FrameWithoutTitle | beamer2org.py:312-315 | with no second `{`, the title starts with `\begin{frame`, and is exactly that for `\begin{frame}` alone |
| Converter.EndFrame | beamer2org.py:323-327 | `\end{frame}` writes one empty line and leaves the frame |
| Converter.StepInFrame | beamer2org.py:329-330 | inside a frame, a line that is no directive is frame content |
| Converter.StepFrameEffect | beamer2org.py:329-401 | inside a frame, a line that is no directive appends the lines of its frame effect and takes its indent and level |
| Converter.StepOutsideFrame | beamer2org.py:402-406 | outside a frame, a line that is no directive is copied unchanged |
| Converter.EnvLineInFrame | beamer2org.py:329-356 | inside a frame, a recognised `\begin{env}`/`\end{env}` line is frame content |
| Converter.EnvHeading | beamer2org.py:339-348 | appends exactly the block heading, titled by the last brace group when the line has two `{`, and its properties |
| Converter.EnvOpens | beamer2org.py:332-351 | a recognised `\begin{env}` writes four lines: a heading one level deeper tagged with the Org environment (`prop`, `prop*`, `thm*`, `thm` become `theorem`), then its properties; the indent restarts at 0 |
| Converter.EnvCloses | beamer2org.py:352-356 | a recognised `\end{env}` goes one level up and appends the closing block exactly when the lookahead asks for it |
| Converter.TwoImagesLine | beamer2org.py:367-371 | a line with two `\includegraphics` writes the two columns, then the closing block when needed; a crash of the handler is the step's crash |
| Converter.GraphicLine | beamer2org.py:377-379 | a line with one `\includegraphics` writes what `process_graphics` returns |
| Converter.FrameListOpens | beamer2org.py:383-385 | `\begin{itemize}`/`\begin{enumerate}` content adds no line and one indent level |
| Converter.ListOpens | beamer2org.py:383-385 | inside a frame, a list opening adds one indent level and writes nothing |
| Converter.FrameListCloses | beamer2org.py:386-388 | `\end{itemize}`/`\end{enumerate}` content adds no line and drops one indent level |
| Converter.ListCloses | beamer2org.py:386-388 | inside a frame, a list closing drops one indent level and writes nothing |
| Converter.FrameItem | beamer2org.py:391-394 | `\item T` content becomes `- ` and `T` stripped, after `2 * (indent - 1)` spaces |
| Converter.ItemLine | beamer2org.py:391-394 | inside a frame, `\item T` writes `- T`, with two spaces per list level beyond the first and none at levels 1 and below |
| Converter.FrameText | beamer2org.py:395-401 | any other frame line is copied after two spaces per list level |
| Converter.StepKeeps | beamer2org.py:267-406 | a step only appends to the output, and never clears the header flag or the assignment of `header_level_count` |
| Converter.RunKeeps | beamer2org.py:267-406 | the same holds for any run of steps |
| Converter.LevelNeverUnbound | beamer2org.py:317-368 | `header_level_count` is assigned whenever the pass is inside a frame, so the reads at lines 343, 354 and 368 never fail |
| Converter.FrameContent | beamer2org.py:330-401 | the frame-content branch appends exactly the lines of `FrameEffect` and returns its new indent and level, or its crash |
| Converter.BodyLine | beamer2org.py:294-406 | the loop body after the header step computes `Body` on the output list and the locals |
| Converter.StepIsBody | beamer2org.py:285-291 | once the header is out, a line that is not skipped or a title goes to the body |
| Converter.HeaderThenBody | beamer2org.py:286-289 | the first `\section` writes the header, then goes to the body |
| Converter.RunStep | beamer2org.py:267-406 | a step that succeeds hands its state to the rest of the pass |
| Converter.ConvertLatexToOrg | beamer2org.py:246-408 | the loop of `convert_latex_to_org`, with the equation pre-pass, computes `Convert`, crashes included |

## Left out

- `main` (lines 414-445) reads the file, derives the output path, writes the result and prints. It is I/O and is not modelled.
- The warning that `process_graphics` prints for a missing image (line 69) is not modelled. Only the empty result is.
- `os.path.exists` is the parameter `fileExists`. `os.path.join` is modelled for POSIX paths only (`PathJoin`).
- The regular expressions of `format_text` are modelled by the predicate `MatchAt` and the search `SearchFrom`, not by a regex engine.
- `str.strip` and `str.split()` take as whitespace only space, tab, line feed and carriage return. Python also strips vertical tab, form feed and Unicode spaces.
- `str.capitalize` is modelled on ASCII letters only. It is only applied to the fixed environment names.
- `in_special_env` (lines 261, 349, 353, 369) is assigned but never read. It is not part of the state.
- The unused `stripped_line` parameter of `process_header` is dropped.
- The section branch of the main loop (lines 299-308) is modelled with `ProcessSection`. It computes the same heading and level as lines 139-146. `process_section` returns `[], 0` for other lines; `ProcessSection` returns `None` there.
- `header_level_count` starts at 0 in the model, where Python leaves it unbound. `LevelNeverUnbound` shows that it is never read unbound.
- `process_two_images_on_same_line` computes the width only to raise its `IndexError`. The model keeps the error and drops the unused value.
- `any(...)` and `next(...)` over generators are modelled as `FirstEnv`, a search in list order.
- Frame depth: line 317 gives `max(section_level, 1) + 1` stars. So a frame under one `\section` is `** t`, the same depth as a frame before any section (`FrameUnderSection`).
- ConvertLatexToOrg: no single postcondition covers whole documents beyond the preamble. Whole-run properties are `ConvertPreamble`, `RunKeeps` and `LevelNeverUnbound`. Per-line behaviour is stated by the `Step` lemmas, which compose through `RunSplit`.
