/**
 * Recovering the tool's current project and branch from its terminal output
 * (`parse_ucm_prompt` in src-tauri/src/ucm_pty.rs). A prompt line reads
 * `project/branch> ` or `project/branch:path> `; the lines are scanned from the last one
 * back, and the first line that yields a valid context wins.
 */
module UcmPrompt {
  import opened Wrappers
  import opened Text

  /** `UCMContext`: the detected project and branch. */
  datatype UcmContext = UcmContext(project: Option<string>, branch: Option<string>)

  /** The empty context a session starts with (`UCMContext::default()`). */
  const NoContext := UcmContext(None, None)

  /** A name the parser accepts: present, non-empty, trimmed and free of ' '. */
  predicate IsAcceptedName(name: Option<string>) {
    name.Some? && name.value != [] && IsTrimmed(name.value) && ' ' !in name.value
  }

  /** The text before the first ':' (the path suffix removed), or all of it. */
  function BeforeColon(s: string): (r: string)
    ensures ':' !in r
    ensures |r| <= |s| && r == s[..|r|]
  {
    match IndexOf(s, ':')
    case Some(colon) => s[..colon]
    case None => s
  }

  /** The trimmed line up to its last '>', if the line is not blank and has a '>'. */
  function PromptPart(line: string): (r: Option<string>)
    ensures r.Some? ==> '>' in line
    ensures r.Some? ==> forall c :: c in r.value ==> c in line
  {
    var trimmed := Trim(line);
    TrimIsTrimmed(line);
    if trimmed == [] then None
    else match LastIndexOf(trimmed, '>')
      case None => None
      case Some(promptEnd) => Some(trimmed[..promptEnd])
  }

  /**
   * Splits the context part at its last '/' into a trimmed project and branch, accepted
   * when both are non-empty and free of ' '.
   */
  function SplitContext(contextPart: string): (r: Option<UcmContext>)
    ensures r.Some? ==> IsAcceptedName(r.value.project) && IsAcceptedName(r.value.branch)
    ensures r.Some? ==> '/' in contextPart
    ensures r.Some? ==> forall c :: c in r.value.project.value ==> c in contextPart
    ensures r.Some? ==> forall c :: c in r.value.branch.value ==> c in contextPart && c != '/'
  {
    match LastIndexOf(contextPart, '/')
    case None => None
    case Some(slash) =>
      var project := Trim(contextPart[..slash]);
      var branch := Trim(contextPart[slash + 1..]);
      TrimIsTrimmed(contextPart[..slash]);
      TrimIsTrimmed(contextPart[slash + 1..]);
      if project != [] && branch != [] && ' ' !in project && ' ' !in branch
      then Some(UcmContext(Some(project), Some(branch)))
      else None
  }

  /** The context one line of output announces, if it is a prompt line. */
  function ParsePromptLine(line: string): (r: Option<UcmContext>)
    ensures r.Some? ==> IsAcceptedName(r.value.project) && IsAcceptedName(r.value.branch)
    ensures r.Some? ==> '>' in line && '/' in line
    ensures r.Some? ==> ':' !in r.value.project.value && ':' !in r.value.branch.value
    ensures r.Some? ==> '/' !in r.value.branch.value
  {
    match PromptPart(line)
    case None => None
    case Some(promptPart) => SplitContext(BeforeColon(promptPart))
  }

  /**
   * Checks the lines from the last one back with `parse` and stops at the first line it
   * accepts (the loop of `parse_ucm_prompt`, whose body is `parse`).
   */
  function ScanLines<T>(lines: seq<string>, parse: string -> Option<T>): Option<T> {
    if lines == [] then None
    else match parse(lines[|lines| - 1])
      case Some(context) => Some(context)
      case None => ScanLines(lines[..|lines| - 1], parse)
  }

  /** `parse` accepts no line after index `k`. */
  predicate NoneAfter<T>(lines: seq<string>, parse: string -> Option<T>, k: int) {
    forall j :: 0 <= j < |lines| && k < j ==> parse(lines[j]).None?
  }

  /**
   * The scan yields None exactly when no line parses: blank and malformed lines are skipped,
   * not the end of the search.
   */
  lemma {:induction false} ScanLinesNone<T>(lines: seq<string>, parse: string -> Option<T>)
    ensures ScanLines(lines, parse).None? <==> NoneAfter(lines, parse, -1)
  {
    if lines != [] {
      var last := |lines| - 1;
      var init := lines[..last];
      if parse(lines[last]).None? {
        ScanLinesNone(init, parse);
        assert forall j :: 0 <= j < last ==> init[j] == lines[j];
      }
    }
  }

  /** What the scan yields comes from the last line that parses. */
  lemma {:induction false} ScanLinesFindsLast<T>(lines: seq<string>, parse: string -> Option<T>)
    requires ScanLines(lines, parse).Some?
    ensures exists k :: 0 <= k < |lines| && parse(lines[k]) == ScanLines(lines, parse)
                        && NoneAfter(lines, parse, k)
  {
    var last := |lines| - 1;
    var init := lines[..last];
    if parse(lines[last]).None? {
      ScanLinesFindsLast(init, parse);
      var k :| 0 <= k < |init| && parse(init[k]) == ScanLines(init, parse) && NoneAfter(init, parse, k);
      assert forall j :: 0 <= j < last ==> init[j] == lines[j];
      assert parse(lines[k]) == ScanLines(lines, parse);
    } else {
      assert parse(lines[last]) == ScanLines(lines, parse);
    }
  }

  /** A last line that parses decides the scan. */
  lemma ScanLinesLast<T>(init: seq<string>, line: string, parse: string -> Option<T>)
    requires parse(line).Some?
    ensures ScanLines(init + [line], parse) == parse(line)
  {
    var lines := init + [line];
    assert lines[|lines| - 1] == line;
  }

  /** A last line that does not parse is skipped. */
  lemma ScanLinesSkipsLast<T>(init: seq<string>, line: string, parse: string -> Option<T>)
    requires parse(line).None?
    ensures ScanLines(init + [line], parse) == ScanLines(init, parse)
  {
    var lines := init + [line];
    assert lines[..|lines| - 1] == init;
  }

  /** `parse_ucm_prompt`. */
  function ParseUcmPrompt(output: string): Option<UcmContext> {
    ScanLines(Lines(output), ParsePromptLine)
  }

  /** A line with a '>' whose context part, before any ':', holds a '/'. */
  predicate IsPromptShaped(line: string) {
    '>' in line && PromptPart(line).Some? && '/' in BeforeColon(PromptPart(line).value)
  }

  /** Only a prompt-shaped line yields a context. */
  lemma PromptLineShape(line: string)
    requires ParsePromptLine(line).Some?
    ensures IsPromptShaped(line)
  {
  }

  /**
   * The output holds a context exactly when one of its lines parses, and then the context
   * comes from the last such line, which is prompt-shaped.
   */
  lemma ParseUcmPromptFinds(output: string)
    ensures ParseUcmPrompt(output).Some? <==>
              exists k :: 0 <= k < |Lines(output)| && ParsePromptLine(Lines(output)[k]).Some?
    ensures ParseUcmPrompt(output).Some? ==>
              exists k :: 0 <= k < |Lines(output)| && ParsePromptLine(Lines(output)[k]) == ParseUcmPrompt(output)
                          && NoneAfter(Lines(output), ParsePromptLine, k) && IsPromptShaped(Lines(output)[k])
  {
    var lines := Lines(output);
    ScanLinesNone(lines, ParsePromptLine);
    if ParseUcmPrompt(output).Some? {
      ScanLinesFindsLast(lines, ParsePromptLine);
      var k :| 0 <= k < |lines| && ParsePromptLine(lines[k]) == ScanLines(lines, ParsePromptLine)
               && NoneAfter(lines, ParsePromptLine, k);
      PromptLineShape(lines[k]);
    }
  }

  /** Output without a '>' holds no prompt. */
  lemma NoPromptWithoutGreaterThan(output: string)
    requires '>' !in output
    ensures ParseUcmPrompt(output) == None
  {
    var lines := Lines(output);
    forall k | 0 <= k < |lines| ensures ParsePromptLine(lines[k]).None? {
      if ParsePromptLine(lines[k]).Some? {
        LinesChars(output, k, '>');
      }
    }
    ScanLinesNone(lines, ParsePromptLine);
  }

  /** The text of a prompt as the tool prints it. */
  function PromptText(project: string, branch: string, path: Option<string>): string {
    project + "/" + branch + (if path.Some? then ":" + path.value else "") + "> "
  }

  /** A project name the prompt reproduces: non-empty, no whitespace, no ':'. */
  predicate IsProjectName(p: string) {
    p != [] && forall i :: 0 <= i < |p| ==> !IsWhitespace(p[i]) && p[i] != ':'
  }

  /** A branch name the prompt reproduces: a project name with no '/' either. */
  predicate IsBranchName(b: string) {
    IsProjectName(b) && '/' !in b
  }

  /**
   * A prompt printed as the last line of the output (after a line break, or alone) parses to
   * its project and branch, whatever the path.
   */
  lemma PromptRoundTrip(before: string, project: string, branch: string, path: Option<string>)
    requires before == [] || before[|before| - 1] == '\n'
    requires IsProjectName(project) && IsBranchName(branch)
    requires path.Some? ==> '\n' !in path.value
    ensures ParseUcmPrompt(before + PromptText(project, branch, path))
            == Some(UcmContext(Some(project), Some(branch)))
  {
    var line := PromptText(project, branch, path);
    PromptLineParses(project, branch, path);
    PromptTextOneLine(project, branch, path);
    UnterminatedLineIsLast(before, line);
    ScanLinesLast(Lines(before), line, ParsePromptLine);
  }

  lemma UnterminatedLineIsLast(before: string, line: string)
    requires before == [] || before[|before| - 1] == '\n'
    requires line != [] && '\n' !in line
    ensures Lines(before + line) == Lines(before) + [line]
  {
    LinesAppend(before, line);
    LinesOfOneLine(line);
  }

  /** A prompt holds no line break when its path holds none. */
  lemma PromptTextOneLine(project: string, branch: string, path: Option<string>)
    requires IsProjectName(project) && IsBranchName(branch)
    requires path.Some? ==> '\n' !in path.value
    ensures PromptText(project, branch, path) != []
    ensures PromptText(project, branch, path)[|PromptText(project, branch, path)| - 1] == ' '
    ensures '\n' !in PromptText(project, branch, path)
  {
    assert '\n' !in project && '\n' !in branch;
  }

  /** The same holds when the prompt line is ended by a line break. */
  lemma TerminatedPromptRoundTrip(before: string, project: string, branch: string, path: Option<string>)
    requires before == [] || before[|before| - 1] == '\n'
    requires IsProjectName(project) && IsBranchName(branch)
    requires path.Some? ==> '\n' !in path.value
    ensures ParseUcmPrompt(before + PromptText(project, branch, path) + "\n")
            == Some(UcmContext(Some(project), Some(branch)))
  {
    var line := PromptText(project, branch, path);
    PromptLineParses(project, branch, path);
    PromptTextOneLine(project, branch, path);
    TerminatedLineIsLast(before, line);
    ScanLinesLast(Lines(before), line, ParsePromptLine);
  }

  lemma TerminatedLineIsLast(before: string, line: string)
    requires before == [] || before[|before| - 1] == '\n'
    requires line != [] && '\n' !in line && line[|line| - 1] != '\r'
    ensures Lines(before + line + "\n") == Lines(before) + [line]
  {
    assert before + line + "\n" == before + (line + "\n");
    LinesAppend(before, line + "\n");
    LinesOfTerminatedLine(line);
  }

  /** The prompt line on its own parses to its project and branch. */
  lemma PromptLineParses(project: string, branch: string, path: Option<string>)
    requires IsProjectName(project) && IsBranchName(branch)
    ensures ParsePromptLine(PromptText(project, branch, path))
            == Some(UcmContext(Some(project), Some(branch)))
  {
    var contextPart := project + "/" + branch;
    var suffix := if path.Some? then ":" + path.value else "";
    var promptPart := contextPart + suffix;
    assert PromptText(project, branch, path) == promptPart + "> ";
    assert promptPart[0] == project[0];
    PromptPartOfPrompt(promptPart);
    ColonStartsPath(contextPart, path);
    SplitsAtLastSlash(project, branch);
  }

  /** Trimming the line and cutting at its last '>' leaves the text before "> ". */
  lemma PromptPartOfPrompt(promptPart: string)
    requires promptPart != [] && !IsWhitespace(promptPart[0])
    ensures PromptPart(promptPart + "> ") == Some(promptPart)
  {
    var core := promptPart + ">";
    assert promptPart + "> " == core + " ";
    TrimDropsTrailingSpace(core, " ");
    LastIndexOfIs(core, '>', |core| - 1);
    assert core[..|core| - 1] == promptPart;
  }

  /** The path suffix starts at the first ':' when the project and branch hold none. */
  lemma ColonStartsPath(contextPart: string, path: Option<string>)
    requires ':' !in contextPart
    ensures BeforeColon(contextPart + (if path.Some? then ":" + path.value else "")) == contextPart
  {
    if path.Some? {
      var s := contextPart + ":" + path.value;
      assert s[..|contextPart|] == contextPart;
      FirstIndexOf(s, ':', |contextPart|);
    } else {
      assert contextPart + "" == contextPart;
    }
  }

  /** `project/branch` splits back into its two names. */
  lemma SplitsAtLastSlash(project: string, branch: string)
    requires IsProjectName(project) && IsBranchName(branch)
    ensures SplitContext(project + "/" + branch) == Some(UcmContext(Some(project), Some(branch)))
  {
    var s := project + "/" + branch;
    assert s[|project| + 1..] == branch;
    LastIndexOfIs(s, '/', |project|);
    assert s[..|project|] == project;
    TrimOfTrimmed(project);
    TrimOfTrimmed(branch);
    assert ' ' !in project && ' ' !in branch;
  }

  /** A project part holding a space is refused. */
  lemma SplitRejectsSpace(project: string, branch: string)
    requires IsTrimmed(project) && ' ' in project && '/' !in branch
    ensures SplitContext(project + "/" + branch) == None
  {
    var s := project + "/" + branch;
    assert s[|project| + 1..] == branch;
    LastIndexOfIs(s, '/', |project|);
    assert s[..|project|] == project;
    TrimOfTrimmed(project);
  }

  /** A prompt whose project part holds a space is no prompt. */
  lemma PromptWithSpaceIsNoPrompt(project: string, branch: string)
    requires project != [] && IsTrimmed(project) && ' ' in project && ':' !in project
    requires '/' !in branch && ':' !in branch
    ensures ParsePromptLine(project + "/" + branch + "> ") == None
  {
    var contextPart := project + "/" + branch;
    assert contextPart[0] == project[0];
    PromptPartOfPrompt(contextPart);
    assert ':' !in contextPart;
    ColonStartsPath(contextPart, None);
    assert contextPart + "" == contextPart;
    SplitRejectsSpace(project, branch);
  }

  /** The parser's test of a bare prompt. */
  lemma ParsesBarePrompt()
    ensures ParseUcmPrompt("tour/main> ") == Some(UcmContext(Some("tour"), Some("main")))
  {
    var line := PromptText("tour", "main", None);
    assert line == "tour/main> ";
    PromptRoundTrip([], "tour", "main", None);
    assert [] + line == line;
  }

  /** The parser's test of a prompt with a path: the path is not part of the branch. */
  lemma ParsesPromptWithPath()
    ensures ParseUcmPrompt("myproject/feature:lib.utils> ")
            == Some(UcmContext(Some("myproject"), Some("feature")))
  {
    var line := PromptText("myproject", "feature", Some("lib.utils"));
    assert line == "myproject/feature:lib.utils> ";
    PromptRoundTrip([], "myproject", "feature", Some("lib.utils"));
    assert [] + line == line;
  }

  /** The parser's test of a prompt after other output. */
  lemma ParsesPromptAfterOutput()
    ensures ParseUcmPrompt("Some output here\nMore output\n" + "conveynow/main> ")
            == Some(UcmContext(Some("conveynow"), Some("main")))
  {
    var before := "Some output here\nMore output\n";
    assert before[|before| - 1] == '\n';
    assert PromptText("conveynow", "main", None) == "conveynow/main> ";
    PromptRoundTrip(before, "conveynow", "main", None);
  }

  /** The parser's test of text without a prompt. */
  lemma FindsNoPromptInPlainText(text: string)
    requires text == "Just some text without a prompt"
    ensures ParseUcmPrompt(text) == None
  {
    NoPromptWithoutGreaterThan(text);
  }
}
