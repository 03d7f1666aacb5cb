/** The `/script-<style>` directive: recognising it on a line, the style to
    template table, the string composition that appends a template to a note,
    and what the file-open and Enter-key paths do with a directive line. */
module Directive {
  import opened Text

  /** The literal part of `/^\/script-(\w+)/i`. */
  const Prefix := "/script-"

  /** The length of the maximal run of word characters at the start of `s`. */
  function WordRun(s: string): (n: nat)
    ensures n <= |s|
    ensures forall k :: 0 <= k < n ==> IsWordChar(s[k])
    ensures n < |s| ==> !IsWordChar(s[n])
  {
    if s != [] && IsWordChar(s[0]) then 1 + WordRun(s[1..]) else 0
  }

  /** `t.match(/^\/script-(\w+)/i)` followed by `m[1].toLowerCase()`: the prefix
      is compared ignoring ASCII case, `\w+` is greedy, and the captured word
      is returned in lower case. */
  function MatchDirective(t: string): (r: Option<string>)
    ensures r.Some? <==> StartsWithFold(t, Prefix) && |t| > |Prefix| && IsWordChar(t[|Prefix|])
    ensures r.Some? ==>
      var n := |r.value|;
      n >= 1 && |Prefix| + n <= |t|
      && (forall k :: |Prefix| <= k < |Prefix| + n ==> IsWordChar(t[k]))
      && (|Prefix| + n == |t| || !IsWordChar(t[|Prefix| + n]))
      && r.value == LowerString(t[|Prefix|..|Prefix| + n])
  {
    if StartsWithFold(t, Prefix) then
      var n := WordRun(t[|Prefix|..]);
      if n == 0 then None else Some(LowerString(t[|Prefix|..|Prefix| + n]))
    else None
  }

  /** A style word in the form the directive returns it. */
  predicate IsStyleWord(s: string) {
    s != [] && forall k :: 0 <= k < |s| ==> IsWordChar(s[k]) && !('A' <= s[k] <= 'Z')
  }

  lemma {:induction false} LowerStyleWord(s: string)
    requires IsStyleWord(s)
    ensures LowerString(s) == s
  {
    if |s| > 1 {
      assert IsStyleWord(s[1..]) by {
        forall k | 0 <= k < |s[1..]| ensures IsWordChar(s[1..][k]) && !('A' <= s[1..][k] <= 'Z') {
          assert s[1..][k] == s[k + 1];
        }
      }
      LowerStyleWord(s[1..]);
      assert s == [s[0]] + s[1..];
    }
  }

  /** The style a directive yields is a lower-case word. */
  lemma MatchIsStyleWord(t: string)
    requires MatchDirective(t).Some?
    ensures IsStyleWord(MatchDirective(t).value)
  {
  }

  /** Writing a style word after the prefix, followed by nothing or by a
      non-word character, gives that style back. */
  lemma DirectiveRoundTrip(style: string, rest: string)
    requires IsStyleWord(style)
    requires rest == [] || !IsWordChar(rest[0])
    ensures MatchDirective(Prefix + style + rest) == Some(style)
  {
    var t := Prefix + style + rest;
    assert t[..|Prefix|] == Prefix;
    assert t[|Prefix|..|Prefix| + |style|] == style;
    LowerStyleWord(style);
    assert t[|Prefix|] == style[0];
  }

  lemma {:induction false} WordRunFold(t: string, u: string)
    requires SameFold(t, u)
    ensures WordRun(t) == WordRun(u)
  {
    if t != [] {
      assert IsWordChar(t[0]) <==> IsWordChar(u[0]) by {
        assert Upper(t[0]) == Upper(u[0]);
      }
      WordRunFold(t[1..], u[1..]);
    }
  }

  /** The directive is read ignoring case, in the prefix and in the style
      alike: `/SCRIPT-Cinema` is the same directive as `/script-cinema`. */
  lemma DirectiveIgnoresCase(t: string, u: string)
    requires SameFold(t, u)
    ensures MatchDirective(t) == MatchDirective(u)
  {
    SameFoldStarts(t, u, Prefix);
    if StartsWithFold(t, Prefix) {
      var n := |Prefix|;
      SameFoldSlice(t, u, n, |t|);
      WordRunFold(t[n..], u[n..]);
      var w := WordRun(t[n..]);
      SameFoldSlice(t, u, n, n + w);
      SameFoldLower(t[n..n + w], u[n..n + w]);
    }
  }

  // ----- The style to template table -----

  /** The eight styles a directive may name. */
  const KnownStyles: set<string> :=
    {"cinema", "serie", "rpg", "livro", "biblia", "jogos", "quadrinhos", "ia"}

  /** The eight template files. */
  const TemplateFiles: set<string> := {
    "cinema.md", "serie.md", "rpg.md", "livro.md", "biblia_serie.md",
    "jogos.md", "quadrinhos.md", "ia_obra.md"
  }

  /** `templateForStyle`, reading only the object literal's own entries: a
      template file for exactly the eight known styles. */
  function TemplateForStyle(style: string): (r: Option<string>)
    ensures r.Some? <==> style in KnownStyles
    ensures r.Some? ==> r.value in TemplateFiles && EndsWith(r.value, ".md")
  {
    if style == "cinema" then Some("cinema.md")
    else if style == "serie" then Some("serie.md")
    else if style == "rpg" then Some("rpg.md")
    else if style == "livro" then Some("livro.md")
    else if style == "biblia" then Some("biblia_serie.md")
    else if style == "jogos" then Some("jogos.md")
    else if style == "quadrinhos" then Some("quadrinhos.md")
    else if style == "ia" then Some("ia_obra.md")
    else None
  }

  /** Different styles never share a template file. */
  lemma TemplatesDistinct(a: string, b: string)
    requires a != b && TemplateForStyle(a).Some? && TemplateForStyle(b).Some?
    ensures TemplateForStyle(a).value != TemplateForStyle(b).value
  {
  }

  /** The template launcher's list (`insertTemplateLauncher`): id and file. */
  const LauncherTable: seq<(string, string)> := [
    ("rpg", "rpg.md"), ("livro", "livro.md"), ("cinema", "cinema.md"),
    ("serie", "serie.md"), ("biblia", "biblia_serie.md"), ("jogos", "jogos.md"),
    ("quadrinhos", "quadrinhos.md"), ("ia", "ia_obra.md")
  ]

  /** The launcher offers the same eight styles, each with the file the
      directive would use, so the menu and the directive insert the same
      template. */
  lemma LauncherAgrees()
    ensures forall i :: 0 <= i < |LauncherTable| ==>
      TemplateForStyle(LauncherTable[i].0) == Some(LauncherTable[i].1)
    ensures forall s :: s in KnownStyles ==>
      exists i :: 0 <= i < |LauncherTable| && LauncherTable[i].0 == s
  {
    forall s | s in KnownStyles
      ensures exists i :: 0 <= i < |LauncherTable| && LauncherTable[i].0 == s
    {
      if s == "rpg" { assert LauncherTable[0].0 == s; }
      else if s == "livro" { assert LauncherTable[1].0 == s; }
      else if s == "cinema" { assert LauncherTable[2].0 == s; }
      else if s == "serie" { assert LauncherTable[3].0 == s; }
      else if s == "biblia" { assert LauncherTable[4].0 == s; }
      else if s == "jogos" { assert LauncherTable[5].0 == s; }
      else if s == "quadrinhos" { assert LauncherTable[6].0 == s; }
      else { assert LauncherTable[7].0 == s; }
    }
  }

  // ----- The lookup as written: a plain object literal -----

  /** The property names every object literal inherits from `Object.prototype`. */
  const PrototypeKeys: set<string> := {
    "constructor", "__proto__", "hasOwnProperty", "isPrototypeOf",
    "propertyIsEnumerable", "toLocaleString", "toString", "valueOf",
    "__defineGetter__", "__defineSetter__", "__lookupGetter__", "__lookupSetter__"
  }

  /** What `map[style]` yields: an own template file, an inherited member
      (a function or an object, both truthy), or `undefined`. */
  datatype Property = OwnFile(file: string) | Inherited(key: string) | Undefined

  /** `templateForStyle` as written: the lookup also reaches the inherited
      members of the literal. */
  function TemplateForStyleAsWritten(style: string): (r: Property)
    ensures r.OwnFile? <==> TemplateForStyle(style).Some?
    ensures r.OwnFile? ==> r.file == TemplateForStyle(style).value
    ensures r.Inherited? <==> style !in KnownStyles && style in PrototypeKeys
  {
    match TemplateForStyle(style)
    case Some(f) => OwnFile(f)
    case None => if style in PrototypeKeys then Inherited(style) else Undefined
  }

  /** The guard `if (!tfile)` of `applyScriptDirective` as written: it rejects
      only `undefined`. */
  predicate RejectedAsWritten(style: string) {
    TemplateForStyleAsWritten(style).Undefined?
  }

  /** `constructor` is a style word, so `/script-constructor` is a directive;
      the same holds for `__proto__`. */
  lemma ConstructorIsDirective()
    ensures MatchDirective(Prefix + "constructor") == Some("constructor")
  {
    DirectiveRoundTrip("constructor", []);
    assert Prefix + "constructor" + [] == Prefix + "constructor";
  }

  lemma ProtoIsDirective()
    ensures MatchDirective(Prefix + "__proto__") == Some("__proto__")
  {
    DirectiveRoundTrip("__proto__", []);
    assert Prefix + "__proto__" + [] == Prefix + "__proto__";
  }

  /** Those two styles are not among the eight, and yet they pass the guard:
      instead of the unknown-style notice the plugin goes on to fetch a
      template named after the inherited member. */
  lemma PrototypeNamesPassGuard()
    ensures "constructor" !in KnownStyles && !RejectedAsWritten("constructor")
    ensures "__proto__" !in KnownStyles && !RejectedAsWritten("__proto__")
  {
  }

  /** The corrected lookup rejects every style outside the eight, and agrees
      with the written one wherever no inherited member is involved. */
  lemma CorrectedRejectsUnknown(style: string)
    ensures TemplateForStyle(style).None? <==> style !in KnownStyles
    ensures style !in PrototypeKeys ==>
      (RejectedAsWritten(style) <==> TemplateForStyle(style).None?)
  {
  }

  // ----- Appending a template -----

  /** `_appendToFile`: `text` goes after `content`, on a new line unless
      `content` already ends with one. */
  function AppendToFile(content: string, text: string): (r: string)
    ensures |content| + |text| <= |r| <= |content| + |text| + 1
    ensures r[..|content|] == content
    ensures EndsWith(r, text)
    ensures |r| > |text| && r[|r| - |text| - 1] == '\n'
    ensures EndsWith(content, "\n") ==> |r| == |content| + |text|
  {
    content + (if EndsWith(content, "\n") then "" else "\n") + text
  }

  /** The text a template adds: its body trimmed, between two line feeds. */
  function Block(body: string): (r: string)
    ensures |r| >= 2 && r[0] == '\n' && r[|r| - 1] == '\n'
    ensures r[1..|r| - 1] == Trim(body)
  {
    "\n" + Trim(body) + "\n"
  }

  /** What `applyScriptDirective` does with a style. */
  datatype Applied =
    | Unrecognized(style: string)   // the unknown-style notice; the note is not written
    | Appended(content: string)     // the note's new text
    | NeedsFetch(file: string)      // no inline body: the template file is fetched

  /** A template file in use: its inline body appended when it has a
      non-empty one, otherwise the file is fetched. */
  function UseTemplate(file: string, content: string, bodies: map<string, string>): (r: Applied)
    ensures r.Appended? <==> file in bodies && bodies[file] != ""
    ensures r.Appended? ==> r.content == AppendToFile(content, Block(bodies[file]))
    ensures r.NeedsFetch? ==> r.file == file
    ensures !r.Unrecognized?
  {
    if file in bodies && bodies[file] != "" then Appended(AppendToFile(content, Block(bodies[file])))
    else NeedsFetch(file)
  }

  /** `applyScriptDirective` on a note whose current text is `content`;
      `bodies` is the table of inline template bodies, by file name (a
      missing or empty body means the file must be fetched). */
  function ApplyScriptDirective(style: string, content: string, bodies: map<string, string>): (r: Applied)
    ensures r.Unrecognized? <==> style !in KnownStyles
    ensures r.Unrecognized? ==> r.style == style
    ensures r.NeedsFetch? ==>
      Some(r.file) == TemplateForStyle(style) && (r.file !in bodies || bodies[r.file] == "")
    ensures r.Appended? ==>
      var file := TemplateForStyle(style).value;
      file in bodies && bodies[file] != "" && r.content == AppendToFile(content, Block(bodies[file]))
  {
    match TemplateForStyle(style)
    case None => Unrecognized(style)
    case Some(file) => UseTemplate(file, content, bodies)
  }

  /** `String(value)` of an inherited member: the name `_inlineTemplates()[tfile]`
      and the template fetch then use. */
  function InheritedName(key: string): (r: string)
    ensures r !in TemplateFiles
  {
    if key == "__proto__" then "[object Object]"
    else if key == "constructor" then "function Object() { [native code] }"
    else "function " + key + "() { [native code] }"
  }

  /** `applyScriptDirective` as written, with the lookup that reaches inherited
      members: only `undefined` is rejected, and an inherited member is used
      as a template name. */
  function ApplyScriptDirectiveAsWritten(style: string, content: string, bodies: map<string, string>): (r: Applied)
    ensures style !in PrototypeKeys ==> r == ApplyScriptDirective(style, content, bodies)
    ensures r.Unrecognized? <==> style !in KnownStyles && style !in PrototypeKeys
    ensures style in PrototypeKeys && style !in KnownStyles ==>
      r == UseTemplate(InheritedName(style), content, bodies)
  {
    match TemplateForStyleAsWritten(style)
    case Undefined => Unrecognized(style)
    case OwnFile(file) => UseTemplate(file, content, bodies)
    case Inherited(key) => UseTemplate(InheritedName(key), content, bodies)
  }

  /** With inline bodies only for template files, `/script-constructor` does
      not raise the unknown-style notice: the plugin fetches a template named
      after the `Object` function, where the corrected lookup rejects the
      style. */
  lemma ConstructorFetchesAsWritten(content: string, bodies: map<string, string>)
    requires forall f :: f in bodies ==> f in TemplateFiles
    ensures ApplyScriptDirectiveAsWritten("constructor", content, bodies)
      == NeedsFetch("function Object() { [native code] }")
    ensures ApplyScriptDirective("constructor", content, bodies) == Unrecognized("constructor")
  {
    assert InheritedName("constructor") == "function Object() { [native code] }";
  }

  /** The inline bodies of `_inlineTemplates` cover every template file with
      a non-empty body, so a known style never reaches the fetch. */
  lemma InlineBodiesAvoidFetch(style: string, content: string, bodies: map<string, string>)
    requires forall f :: f in TemplateFiles ==> f in bodies && bodies[f] != ""
    ensures !ApplyScriptDirective(style, content, bodies).NeedsFetch?
  {
  }

  /** Applying a known template to a note that ends with a line feed leaves a
      blank line between the note and the template. */
  lemma AppendAfterNewline(content: string, body: string)
    requires EndsWith(content, "\n")
    ensures AppendToFile(content, Block(body)) == content + "\n" + Trim(body) + "\n"
  {
  }

  // ----- The two ways a directive is found -----

  /** `handleSlashDirectiveOnOpen`: nothing happens unless the trimmed first
      line is a directive; then the note becomes its remaining lines and the
      style is applied to that text. */
  datatype OpenOutcome = Untouched | Handled(rest: string, applied: Applied)

  /** The text after the first line: `split('\n').slice(1).join('\n')`. */
  function AfterFirstLine(content: string): (r: string)
    ensures |r| < |content| || content == []
  {
    JoinSplit(content);
    var lines := Split(content);
    LinesTail(lines);
    Join(lines[1..], "\n")
  }

  lemma LinesTail(lines: seq<string>)
    requires |lines| >= 1
    ensures |lines| > 1 ==> Join(lines, "\n") == lines[0] + "\n" + Join(lines[1..], "\n")
    ensures |lines| == 1 ==> Join(lines[1..], "\n") == ""
  {
  }

  /** The first line and the rest put back together give the note. */
  lemma AfterFirstLineRestores(content: string)
    ensures '\n' in content ==> content == Split(content)[0] + "\n" + AfterFirstLine(content)
    ensures '\n' !in content ==> AfterFirstLine(content) == ""
  {
    var lines := Split(content);
    JoinSplit(content);
    LinesTail(lines);
    if |lines| > 1 {
      assert content[|lines[0]|] == '\n';
    }
  }

  function HandleSlashDirectiveOnOpen(content: string, bodies: map<string, string>): (r: OpenOutcome)
    ensures r.Handled? <==> MatchDirective(Trim(Split(content)[0])).Some?
    ensures r.Handled? ==>
      r.rest == AfterFirstLine(content)
      && r.applied == ApplyScriptDirective(MatchDirective(Trim(Split(content)[0])).value, r.rest, bodies)
  {
    match MatchDirective(Trim(Split(content)[0]))
    case None => Untouched
    case Some(style) =>
      var rest := AfterFirstLine(content);
      Handled(rest, ApplyScriptDirective(style, rest, bodies))
  }

  /** Splitting off a first line that holds no line feed. */
  lemma FirstLineOf(line: string, body: string)
    requires '\n' !in line
    ensures Split(line + "\n" + body)[0] == line
    ensures AfterFirstLine(line + "\n" + body) == body
  {
    var content := line + "\n" + body;
    assert content == line + ("\n" + body);
    SplitPrefix(line, "\n" + body);
    assert ("\n" + body)[1..] == body;
    assert Split("\n" + body) == [""] + Split(body);
    assert line + "" == line;
    assert Split(content)[1..] == Split(body);
    JoinSplit(body);
  }

  /** A directive line written with a style word is already trimmed. */
  lemma DirectiveLineShape(style: string)
    requires IsStyleWord(style)
    ensures '\n' !in Prefix + style
    ensures Trim(Prefix + style) == Prefix + style
  {
    var line := Prefix + style;
    forall k | 0 <= k < |line| ensures line[k] != '\n' {
      if k >= |Prefix| { assert line[k] == style[k - |Prefix|]; }
    }
    assert line[|line| - 1] == style[|style| - 1];
    TrimUnique([], line, []);
    assert [] + line + [] == line;
  }

  /** A directive line followed by the note's text: the style is read from
      the first line and the text is what remains, whatever the style. In
      particular an unknown style still costs the note its first line. */
  lemma DirectiveLineRemoved(style: string, body: string, bodies: map<string, string>)
    requires IsStyleWord(style)
    ensures HandleSlashDirectiveOnOpen(Prefix + style + "\n" + body, bodies)
      == Handled(body, ApplyScriptDirective(style, body, bodies))
    ensures style !in KnownStyles ==>
      HandleSlashDirectiveOnOpen(Prefix + style + "\n" + body, bodies).applied == Unrecognized(style)
  {
    DirectiveLineShape(style);
    FirstLineOf(Prefix + style, body);
    DirectiveRoundTrip(style, []);
    assert Prefix + style + [] == Prefix + style;
  }

  /** The Enter-key handler: after Enter on line `cursor`, the line before it
      (line 0 when the cursor is on line 0) is checked. A directive there is
      removed from the editor with its line break and its style is applied. */
  datatype KeyOutcome = NoDirective | Removed(lines: seq<string>, style: string)

  /** The line the handler checks. */
  function CheckedLine(cursor: nat): (prev: nat)
    ensures cursor > 0 ==> prev + 1 == cursor
    ensures cursor == 0 ==> prev == 0
  {
    if cursor > 0 then cursor - 1 else 0
  }

  /** `editor.getLine(prev) || ''`, trimmed: empty past the last line. */
  function LineText(lines: seq<string>, i: nat): (t: string)
    ensures i < |lines| ==> |t| <= |lines[i]|
    ensures i >= |lines| ==> t == []
    ensures t != [] ==> !IsJsSpace(t[|t| - 1])
  {
    if i < |lines| then Trim(lines[i]) else ""
  }

  /** `replaceRange('', {line: prev, ch: 0}, {line: prev + 1, ch: 0})`: the
      line and its break go; on the last line, where the end position lies
      past the text, only the line's text goes. */
  function RemoveLine(lines: seq<string>, i: nat): (r: seq<string>)
    requires i < |lines|
    ensures i + 1 < |lines| ==>
              |r| == |lines| - 1
              && (forall k :: 0 <= k < i ==> r[k] == lines[k])
              && (forall k :: i <= k < |r| ==> r[k] == lines[k + 1])
    ensures i + 1 == |lines| ==> r == lines[..i] + [""]
  {
    if i + 1 < |lines| then lines[..i] + lines[i + 1..] else lines[..i] + [""]
  }

  function Keydown(lines: seq<string>, cursor: nat): (r: KeyOutcome)
    ensures r.Removed? <==> MatchDirective(LineText(lines, CheckedLine(cursor))).Some?
    ensures r.Removed? ==>
      CheckedLine(cursor) < |lines|
      && r.style == MatchDirective(Trim(lines[CheckedLine(cursor)])).value
      && r.lines == RemoveLine(lines, CheckedLine(cursor))
  {
    var prev := CheckedLine(cursor);
    match MatchDirective(LineText(lines, prev))
    case None => NoDirective
    case Some(style) => Removed(RemoveLine(lines, prev), style)
  }

  /** Both paths read a line the same way: a note opened with the directive
      on its first line and the editor after Enter on that line agree on the
      style. */
  lemma {:induction false} KeydownAgreesWithOpen(content: string, bodies: map<string, string>)
    requires '\n' in content
    ensures var lines := Split(content);
            var onOpen := HandleSlashDirectiveOnOpen(content, bodies);
            var keyed := Keydown(lines, 1);
            (onOpen.Handled? <==> keyed.Removed?)
            && (keyed.Removed? ==>
                  onOpen.applied == ApplyScriptDirective(keyed.style, onOpen.rest, bodies)
                  && Join(keyed.lines, "\n") == onOpen.rest)
  {
    var lines := Split(content);
    JoinSplit(content);
    LinesTail(lines);
    assert |lines| > 1;
    assert RemoveLine(lines, 0) == lines[1..];
  }
}
