/** The `sandbox.md` builder against its parser: which commands survive being written and read back. */
module SandboxContract {
  import opened Prelude
  import opened Text

  datatype Policy = ScoreImprovement | PassOnly

  datatype Value = Scalar(text: string) | Section(entries: map<string, string>)

  datatype Error =
    | NoFrontmatter | UnsupportedLine(line: string) | NestedWithoutSection(line: string)
    | NoEvaluator | BadPolicy | NoCommand | NoFormat | FormatNotJson

  /** A parsed contract; its format is always JSON. */
  datatype Contract = Contract(command: string, policy: Option<Policy>, frontmatter: map<string, Value>, body: string)

  /** The fixed words of a contract file. */
  datatype Words = Words(marker: string, evaluator: string, command: string, format: string, json: string,
                         keepPolicy: string, passOnly: string, scoreImprovement: string)

  function SandboxWords(): Words {
    Words("---", "evaluator", "command", "format", "json", "keep_policy", "pass_only", "score_improvement")
  }

  predicate IsWord(t: string) {
    t != "" && forall i :: 0 <= i < |t| ==> t[i] == '_' || 'a' <= t[i] <= 'z'
  }

  /** All the proofs need to know of the words. */
  predicate Good(w: Words) {
    && w.marker != "" && w.marker[0] == '-'
    && IsWord(w.evaluator) && IsWord(w.command) && IsWord(w.format) && IsWord(w.json) && IsWord(w.keepPolicy)
    && IsWord(w.passOnly) && IsWord(w.scoreImprovement) && w.passOnly != w.scoreImprovement
    && w.evaluator != w.command && w.command != w.format && w.command != w.keepPolicy && w.format != w.keepPolicy
  }

  lemma WordsAreGood()
    ensures Good(SandboxWords())
  {
    var w := SandboxWords();
    assert |w.passOnly| != |w.scoreImprovement| && |w.evaluator| != |w.command| && |w.command| != |w.format|;
    assert |w.command| != |w.keepPolicy| && |w.format| != |w.keepPolicy|;
  }

  // ---------- Characters and lines ----------

  predicate IsKeyChar(c: char) {
    'A' <= c <= 'Z' || 'a' <= c <= 'z' || '0' <= c <= '9' || c == '_' || c == '-'
  }

  /** What `.` of a regular expression does not match. */
  predicate IsTerminator(c: char) {
    c == '\n' || c == '\r' || c == '\U{2028}' || c == '\U{2029}'
  }

  predicate IsQuote(c: char) {
    c == '\'' || c == '"'
  }

  predicate HasTerminator(t: string) {
    exists i :: 0 <= i < |t| && IsTerminator(t[i])
  }

  predicate IsKey(t: string) {
    t != "" && forall i :: 0 <= i < |t| ==> IsKeyChar(t[i])
  }

  predicate Trimmed(t: string) {
    t == "" || (!IsSpace(t[0]) && !IsSpace(t[|t| - 1]))
  }

  function KeyLength(t: string): (n: nat)
    ensures n <= |t| && (n < |t| ==> !IsKeyChar(t[n]))
    ensures forall i :: 0 <= i < n ==> IsKeyChar(t[i])
  {
    if t != "" && IsKeyChar(t[0]) then 1 + KeyLength(t[1..]) else 0
  }

  function ExpandTabs(t: string): (r: string)
    ensures '\t' !in r
  {
    if t == "" then "" else (if t[0] == '\t' then "  " else [t[0]]) + ExpandTabs(t[1..])
  }

  /** Drops one quote at the start and one at the end. */
  function StripQuotes(t: string): (r: string)
    ensures |r| <= |t|
  {
    var u := if t != "" && IsQuote(t[0]) then t[1..] else t;
    if u != "" && IsQuote(u[|u| - 1]) then u[..|u| - 1] else u
  }

  /** The lines of a text, ended by a line feed and perhaps a carriage return before it. */
  function Lines(t: string): (r: seq<string>)
    ensures r != []
  {
    LinesFrom("", t)
  }

  function LinesFrom(line: string, t: string): (r: seq<string>)
    ensures r != []
    decreases |t|
  {
    if t == "" then [line]
    else if t[0] == '\n' then [DropReturn(line)] + LinesFrom("", t[1..])
    else LinesFrom(line + [t[0]], t[1..])
  }

  function DropReturn(line: string): string {
    if line != "" && line[|line| - 1] == '\r' then line[..|line| - 1] else line
  }

  // ---------- The parser ----------

  datatype Line = Blank | Header(key: string) | Entry(key: string, value: string, indented: bool, text: string) | Unsupported(text: string)

  /** The meaning of one line. */
  function Classify(raw: string): Line {
    var line := ExpandTabs(raw);
    ClassifyText(Trim(line), line != "" && line[0] == ' ')
  }

  /** On a trimmed line the pattern `key: value` fixes its value: what follows the colon without its leading
      space. */
  function ClassifyText(text: string, indented: bool): Line {
    if text == "" || text[0] == '#' then Blank
    else
      var n := KeyLength(text);
      if n == 0 || n == |text| || text[n] != ':' then Unsupported(text)
      else ClassifyEntry(text[..n], TrimStart(text[n + 1..]), indented, text)
  }

  function ClassifyEntry(key: string, value: string, indented: bool, text: string): Line {
    if value == "" then Header(key)
    else if HasTerminator(value) then Unsupported(text)
    else Entry(key, StripQuotes(value), indented, text)
  }

  datatype State = State(entries: map<string, Value>, section: Option<string>)

  /** The current section is always one of the sections seen. */
  ghost predicate Sound(st: State) {
    st.section.Some? ==> st.section.value in st.entries && st.entries[st.section.value].Section?
  }

  function Step(st: State, line: Line): (r: Result<State, Error>)
    requires Sound(st)
    ensures r.Ok? ==> Sound(r.value)
  {
    match line
    case Blank => Ok(st)
    case Header(key) => Ok(State(st.entries[key := Section(map[])], Some(key)))
    case Unsupported(text) => Err(UnsupportedLine(text))
    case Entry(key, value, indented, text) =>
      if !indented then Ok(State(st.entries[key := Scalar(value)], None))
      else if st.section.None? then Err(NestedWithoutSection(text))
      else
        var name := st.section.value;
        Ok(st.(entries := st.entries[name := Section(st.entries[name].entries[key := value])]))
  }

  function Fold(lines: seq<Line>, st: State): (r: Result<State, Error>)
    requires Sound(st)
    ensures r.Ok? ==> Sound(r.value)
    decreases |lines|
  {
    if lines == [] then Ok(st)
    else
      var next := Step(st, lines[0]);
      if next.Err? then next else Fold(lines[1..], next.value)
  }

  function Each<T, U>(f: T -> U, s: seq<T>): (r: seq<U>)
    ensures |r| == |s| && forall i :: 0 <= i < |s| ==> r[i] == f(s[i])
  {
    if s == [] then [] else [f(s[0])] + Each(f, s[1..])
  }

  function ClassifyAll(lines: seq<string>): (r: seq<Line>)
    ensures |r| == |lines|
  {
    Each(Classify, lines)
  }

  function Initial(): State {
    State(map[], None)
  }

  /** The loop over the lines of the front matter; the section it writes to always exists. */
  method FoldLines(classify: string -> Line, lines: seq<string>) returns (r: Result<State, Error>)
    ensures r == Fold(Each(classify, lines), Initial())
  {
    ghost var all := Each(classify, lines);
    var st := Initial();
    var i := 0;
    while i < |lines|
      invariant 0 <= i <= |lines| && Sound(st)
      invariant Fold(all, Initial()) == Fold(all[i..], st)
    {
      var next := Step(st, classify(lines[i]));
      if next.Err? {
        return next;
      }
      st := next.value;
      i := i + 1;
    }
    return Ok(st);
  }

  method ParseFrontmatter(text: string) returns (r: Result<State, Error>)
    ensures r == Fold(ClassifyAll(Lines(text)), Initial())
  {
    r := FoldLines(Classify, Lines(text));
  }

  /** Whether a text begins with the line end and the marker that close the front matter. */
  function Closes(fence: string): string -> bool {
    (t: string) => fence <= t || ['\r'] + fence <= t
  }

  function Shift(r: Option<nat>, k: nat): Option<nat> {
    if r.None? then None else Some(k + r.value)
  }

  /** The first position from which a test holds. */
  function FindFirst(at: string -> bool, t: string): (r: Option<nat>)
    ensures r.Some? ==> r.value <= |t| && at(t[r.value..])
  {
    if at(t) then Some(0) else if t == "" then None else Shift(FindFirst(at, t[1..]), 1)
  }

  function SkipLineEnd(t: string): string {
    var u := if t != "" && t[0] == '\r' then t[1..] else t;
    if u != "" && u[0] == '\n' then u[1..] else u
  }

  /** What follows the opening marker and its line end. */
  function AfterOpening(content: string, marker: string): Option<string> {
    if !(marker <= content) then None
    else
      var t := content[|marker|..];
      var end := if t != "" && t[0] == '\r' then t[1..] else t;
      if end == "" || end[0] != '\n' then None else Some(end[1..])
  }

  /** What lies before and behind the closing marker. */
  function SplitAtClose(t: string, fence: string): Option<(string, string)> {
    var close := FindFirst(Closes(fence), t);
    if close.None? then None
    else
      var after := t[close.value..];
      Some((t[..close.value], if fence <= after then after[|fence|..] else after[|fence| + 1..]))
  }

  /** The front matter and the trimmed body. */
  function Extract(content: string, marker: string): (r: Option<(string, string)>) {
    var rest := AfterOpening(content, marker);
    if rest.None? then None
    else
      var parts := SplitAtClose(rest.value, ['\n'] + marker);
      if parts.None? then None else Some((parts.value.0, Trim(SkipLineEnd(parts.value.1))))
  }

  function PolicyName(w: Words, p: Policy): string {
    if p.PassOnly? then w.passOnly else w.scoreImprovement
  }

  function ParsePolicy(w: Words, raw: Option<string>): Result<Option<Policy>, Error> {
    if raw.None? then Ok(None)
    else
      var policy := ToLower(Trim(raw.value));
      if policy == "" then Ok(None)
      else if policy == w.passOnly then Ok(Some(PassOnly))
      else if policy == w.scoreImprovement then Ok(Some(ScoreImprovement))
      else Err(BadPolicy)
  }

  function Get(entries: map<string, string>, key: string): Option<string> {
    if key in entries then Some(entries[key]) else None
  }

  function GetOrEmpty(entries: map<string, string>, key: string): string {
    if key in entries then entries[key] else ""
  }

  function Interpret(w: Words, frontmatter: map<string, Value>, body: string): Result<Contract, Error> {
    if w.evaluator !in frontmatter || frontmatter[w.evaluator].Scalar? then Err(NoEvaluator)
    else Evaluate(w, frontmatter[w.evaluator].entries, frontmatter, body)
  }

  function Evaluate(w: Words, evaluator: map<string, string>, frontmatter: map<string, Value>, body: string): Result<Contract, Error> {
    var command := Trim(GetOrEmpty(evaluator, w.command));
    var format := ToLower(Trim(GetOrEmpty(evaluator, w.format)));
    var policy := ParsePolicy(w, Get(evaluator, w.keepPolicy));
    if policy.Err? then Err(policy.error)
    else if command == "" then Err(NoCommand)
    else if format == "" then Err(NoFormat)
    else if format != w.json then Err(FormatNotJson)
    else Ok(Contract(command, policy.value, frontmatter, body))
  }

  function Parse(w: Words, content: string): Result<Contract, Error> {
    var parts := Extract(content, w.marker);
    if parts.None? then Err(NoFrontmatter)
    else
      var end := Fold(ClassifyAll(Lines(parts.value.0)), Initial());
      if end.Err? then Err(end.error) else Interpret(w, end.value.entries, parts.value.1)
  }

  // ---------- The builder ----------

  function Flatten(t: string): (r: string)
    ensures |r| == |t| && forall i :: 0 <= i < |t| ==> r[i] == if t[i] == '\r' || t[i] == '\n' then ' ' else t[i]
  {
    ReplaceChar(ReplaceChar(t, '\r', ' '), '\n', ' ')
  }

  function SafeCommand(command: string): string {
    Trim(Flatten(command))
  }

  function Join(lines: seq<string>): string
    requires lines != []
  {
    if |lines| == 1 then lines[0] else lines[0] + ['\n'] + Join(lines[1..])
  }

  function EntryLine(key: string, value: string): string {
    [' ', ' '] + key + [':', ' '] + value
  }

  function BuiltLines(w: Words, command: string, policy: Policy): (r: seq<string>)
    ensures r != []
  {
    [w.evaluator + [':'], EntryLine(w.command, command), EntryLine(w.format, w.json), EntryLine(w.keepPolicy, PolicyName(w, policy))]
  }

  function Framed(front: string, marker: string): string {
    (marker + ['\n']) + (front + (['\n'] + marker + ['\n']))
  }

  function Build(w: Words, command: string, policy: Policy): string {
    Framed(Join(BuiltLines(w, SafeCommand(command), policy)), w.marker)
  }

  // ---------- One line ----------

  lemma Associative(a: string, b: string, c: string)
    ensures a + (b + c) == a + b + c
  {
  }

  lemma {:induction false} ExpandTabsConcat(a: string, b: string)
    ensures ExpandTabs(a + b) == ExpandTabs(a) + ExpandTabs(b)
    decreases |a|
  {
    if a == "" {
      assert a + b == b;
    } else {
      assert (a + b)[0] == a[0] && (a + b)[1..] == a[1..] + b;
      ExpandTabsConcat(a[1..], b);
      Associative(if a[0] == '\t' then "  " else [a[0]], ExpandTabs(a[1..]), ExpandTabs(b));
    }
  }

  lemma {:induction false} ExpandTabsPlain(t: string)
    requires '\t' !in t
    ensures ExpandTabs(t) == t
  {
    if t != "" {
      ExpandTabsPlain(t[1..]);
    }
  }

  /** Tabs inside a trimmed text stay inside it. */
  lemma {:induction false} ExpandTabsEdges(t: string)
    requires t != ""
    ensures ExpandTabs(t) != ""
    ensures !IsSpace(t[0]) ==> ExpandTabs(t)[0] == t[0]
    ensures var r := ExpandTabs(t); !IsSpace(t[|t| - 1]) ==> r[|r| - 1] == t[|t| - 1]
  {
    if |t| > 1 {
      ExpandTabsEdges(t[1..]);
    }
  }

  lemma TrimOfTrimmed(t: string)
    requires Trimmed(t)
    ensures Trim(t) == t && TrimStart(t) == t
  {
  }

  lemma TrimStartSpace(t: string)
    ensures TrimStart([' '] + t) == TrimStart(t)
  {
    assert ([' '] + t)[1..] == t;
  }

  lemma TrimStartPadded(t: string)
    ensures TrimStart([' ', ' '] + t) == TrimStart(t)
  {
    assert [' ', ' '] + t == [' '] + ([' '] + t);
    TrimStartSpace([' '] + t);
    TrimStartSpace(t);
  }

  lemma TrimPadded(t: string)
    requires Trimmed(t)
    ensures Trim([' ', ' '] + t) == t
  {
    TrimStartPadded(t);
    TrimOfTrimmed(t);
  }

  lemma TrimEndSpace(t: string)
    ensures TrimEnd(t + [' ']) == TrimEnd(t)
  {
    assert (t + [' '])[..|t|] == t;
  }

  lemma {:induction false} KeyLengthOf(key: string, rest: string)
    requires (forall i :: 0 <= i < |key| ==> IsKeyChar(key[i])) && (rest == "" || !IsKeyChar(rest[0]))
    ensures KeyLength(key + rest) == |key|
    decreases |key|
  {
    if key == "" {
      assert key + rest == rest;
    } else {
      assert (key + rest)[1..] == key[1..] + rest;
      KeyLengthOf(key[1..], rest);
    }
  }

  lemma KeyExpands(key: string)
    requires IsKey(key)
    ensures ExpandTabs(key) == key && Trimmed(key)
  {
    ExpandTabsPlain(key);
  }

  lemma KeySplit(key: string, rest: string, text: string)
    requires IsKey(key) && rest != "" && rest[0] == ':' && text == key + rest
    ensures text != "" && text[0] != '#' && 0 < KeyLength(text) == |key| < |text| && text[|key|] == ':'
    ensures text[|key| + 1..] == rest[1..] && text[..|key|] == key
  {
    KeyLengthOf(key, rest);
    assert text[0] == key[0];
  }

  lemma ClassifyHeader(key: string, indented: bool)
    requires IsKey(key)
    ensures ClassifyText(key + [':'], indented) == Header(key)
  {
    KeySplit(key, [':'], key + [':']);
  }

  /** A line whose key and value have been found. */
  lemma ClassifyAt(text: string, n: nat, indented: bool)
    requires 0 < n < |text| && text[0] != '#' && text[n] == ':' && KeyLength(text) == n
    ensures ClassifyText(text, indented) == ClassifyEntry(text[..n], TrimStart(text[n + 1..]), indented, text)
  {
  }

  lemma ColonRest(v: string, rest: string)
    requires rest == [':', ' '] + v
    ensures rest != "" && rest[0] == ':' && rest[1..] == [' '] + v
  {
  }

  lemma ClassifyFilled(key: string, v: string, text: string, indented: bool)
    requires IsKey(key) && TrimStart(v) == v && v != "" && text == key + ([':', ' '] + v)
    ensures ClassifyText(text, indented) ==
            if HasTerminator(v) then Unsupported(text) else Entry(key, StripQuotes(v), indented, text)
  {
    var rest := [':', ' '] + v;
    ColonRest(v, rest);
    KeySplit(key, rest, text);
    TrimStartSpace(v);
    ClassifyAt(text, |key|, indented);
  }

  lemma SectionLine(key: string)
    requires IsKey(key)
    ensures Classify(key + [':']) == Header(key)
  {
    ExpandTabsConcat(key, [':']);
    KeyExpands(key);
    assert ExpandTabs([':']) == [':'];
    TrimOfTrimmed(key + [':']);
    ClassifyHeader(key, false);
    assert (key + [':'])[0] == key[0];
  }

  lemma EntryExpands(key: string, value: string)
    requires IsKey(key)
    ensures ExpandTabs(EntryLine(key, value)) == EntryLine(key, ExpandTabs(value))
  {
    ExpandTabsConcat([' ', ' '] + key + [':', ' '], value);
    ExpandTabsPlain([' ', ' '] + key + [':', ' ']);
  }

  /** An entry without a value reads as a section of its own. */
  lemma EmptyEntry(key: string)
    requires IsKey(key)
    ensures Classify(EntryLine(key, "")) == Header(key)
  {
    EntryExpands(key, "");
    TrimEmptyEntry(key);
    ClassifyHeader(key, true);
  }

  lemma NoTrimStart(t: string)
    requires t != "" && !IsSpace(t[0])
    ensures TrimStart(t) == t
  {
  }

  lemma NoTrimEnd(t: string)
    requires t != "" && !IsSpace(t[|t| - 1])
    ensures TrimEnd(t) == t
  {
  }

  lemma EmptyEntryParts(key: string, short: string, long: string)
    requires short == key + [':'] && long == short + [' ']
    ensures EntryLine(key, "") == [' ', ' '] + long
  {
  }

  lemma TrimAround(short: string, long: string)
    requires long == short + [' '] && TrimStart(long) == long && TrimEnd(short) == short
    ensures Trim([' ', ' '] + long) == short
  {
    TrimStartPadded(long);
    TrimEndSpace(short);
  }

  lemma KeyEdges(key: string, short: string, long: string)
    requires IsKey(key) && short == key + [':'] && long == short + [' ']
    ensures TrimStart(long) == long && TrimEnd(short) == short
  {
    assert long[0] == key[0] && short[|short| - 1] == ':';
    NoTrimStart(long);
    NoTrimEnd(short);
  }

  lemma TrimEmptyEntry(key: string)
    requires IsKey(key)
    ensures Trim(EntryLine(key, "")) == key + [':']
  {
    var short := key + [':'];
    var long := short + [' '];
    EmptyEntryParts(key, short, long);
    KeyEdges(key, short, long);
    TrimAround(short, long);
  }

  lemma ExpandKeepsTrimmed(t: string)
    requires Trimmed(t) && t != ""
    ensures Trimmed(ExpandTabs(t)) && ExpandTabs(t) != ""
  {
    ExpandTabsEdges(t);
  }

  /** An entry with a trimmed value reads as its key and its value, tabs expanded and quotes stripped, unless the
      value holds a line terminator. */
  lemma FilledEntry(key: string, value: string)
    requires IsKey(key) && Trimmed(value) && value != ""
    ensures var v := ExpandTabs(value);
            var text := key + [':', ' '] + v;
            Classify(EntryLine(key, value)) ==
            if HasTerminator(v) then Unsupported(text) else Entry(key, StripQuotes(v), true, text)
  {
    var v := ExpandTabs(value);
    var text := key + ([':', ' '] + v);
    EntryExpands(key, value);
    ExpandKeepsTrimmed(value);
    TrimOfTrimmed(v);
    EntryText(key, v, text);
    TrimPadded(text);
    ClassifyFilled(key, v, text, true);
  }

  lemma EntryText(key: string, v: string, text: string)
    requires IsKey(key) && Trimmed(v) && v != "" && text == key + ([':', ' '] + v)
    ensures EntryLine(key, v) == [' ', ' '] + text && text == key + [':', ' '] + v && Trimmed(text)
  {
    assert text[0] == key[0] && text[|text| - 1] == v[|v| - 1];
  }

  // ---------- Lines and front matter ----------

  predicate SingleLine(t: string) {
    '\n' !in t && '\r' !in t
  }

  lemma {:induction false} LinesOfSingle(line: string, t: string)
    requires SingleLine(t)
    ensures LinesFrom(line, t) == [line + t]
    decreases |t|
  {
    if t == "" {
      assert line + t == line;
    } else {
      LinesOfSingle(line + [t[0]], t[1..]);
      assert line + [t[0]] + t[1..] == line + t;
    }
  }

  lemma {:induction false} LinesOfFirst(line: string, t: string, rest: string)
    requires SingleLine(line) && SingleLine(t)
    ensures LinesFrom(line, t + ['\n'] + rest) == [line + t] + LinesFrom("", rest)
    decreases |t|
  {
    var all := t + ['\n'] + rest;
    if t == "" {
      assert all[1..] == rest && line + t == line;
    } else {
      assert all[1..] == t[1..] + ['\n'] + rest;
      LinesOfFirst(line + [t[0]], t[1..], rest);
      assert line + [t[0]] + t[1..] == line + t;
    }
  }

  /** Splitting undoes joining. */
  lemma {:induction false} LinesOfJoin(lines: seq<string>)
    requires lines != [] && forall i :: 0 <= i < |lines| ==> SingleLine(lines[i])
    ensures Lines(Join(lines)) == lines
    decreases |lines|
  {
    if |lines| == 1 {
      LinesOfSingle("", lines[0]);
      assert "" + lines[0] == lines[0] && [lines[0]] == lines;
    } else {
      LinesOfFirst("", lines[0], Join(lines[1..]));
      LinesOfJoin(lines[1..]);
      assert "" + lines[0] == lines[0] && [lines[0]] + lines[1..] == lines;
    }
  }

  /** A test that holds at line ends only. */
  ghost predicate AtLineEnd(at: string -> bool) {
    forall t :: t != "" && t[0] != '\n' && t[0] != '\r' ==> !at(t)
  }

  lemma ClosesAtLineEnd(fence: string)
    requires fence != "" && fence[0] == '\n'
    ensures AtLineEnd(Closes(fence))
  {
    forall t: string | t != "" && t[0] != '\n' && t[0] != '\r' ensures !Closes(fence)(t) {
      assert (['\r'] + fence)[0] == '\r';
    }
  }

  lemma FirstLater(at: string -> bool, t: string)
    requires t != "" && !at(t)
    ensures FindFirst(at, t) == Shift(FindFirst(at, t[1..]), 1)
  {
  }

  lemma ShiftTwice(r: Option<nat>, a: nat, b: nat)
    ensures Shift(Shift(r, a), b) == Shift(r, a + b)
  {
  }

  lemma SkipOne(t: string, rest: string)
    requires t != "" && SingleLine(t)
    ensures var all := t + rest; all != "" && all[0] != '\n' && all[0] != '\r' && all[1..] == t[1..] + rest && SingleLine(t[1..])
  {
    assert t[0] in t && (t + rest)[0] == t[0];
  }

  lemma {:induction false} FirstSkips(at: string -> bool, t: string, rest: string)
    requires SingleLine(t) && AtLineEnd(at)
    ensures FindFirst(at, t + rest) == Shift(FindFirst(at, rest), |t|)
    decreases |t|
  {
    if t == "" {
      assert t + rest == rest;
    } else {
      SkipOne(t, rest);
      FirstLater(at, t + rest);
      FirstSkips(at, t[1..], rest);
      ShiftTwice(FindFirst(at, rest), |t| - 1, 1);
    }
  }

  lemma NoCloseHere(rest: string, fence: string)
    requires 1 < |fence| && fence[0] == '\n' && rest != "" && rest[0] != fence[1]
    ensures !Closes(fence)(['\n'] + rest)
  {
    var t, other := ['\n'] + rest, ['\r'] + fence;
    assert t[0] == '\n' && t[1] == rest[0] && other[0] == '\r';
  }

  lemma FirstOfCons(at: string -> bool, line: string, inner: string, end: string)
    requires SingleLine(line) && AtLineEnd(at) && end == ['\n'] + inner && !at(end)
    ensures FindFirst(at, line + end) == Shift(FindFirst(at, inner), |line| + 1)
  {
    FirstSkips(at, line, end);
    FirstLater(at, end);
    assert end[1..] == inner;
    ShiftTwice(FindFirst(at, inner), 1, |line|);
  }

  lemma Regroup(line: string, inner: string, tail: string)
    ensures (line + ['\n'] + inner) + tail == line + (['\n'] + (inner + tail))
  {
  }

  lemma JoinStarts(lines: seq<string>)
    requires lines != [] && lines[0] != ""
    ensures Join(lines) != "" && Join(lines)[0] == lines[0][0]
  {
  }

  /** The front matter of joined lines ends behind the last of them, if no later line begins like the marker. */
  lemma {:induction false} CloseOfJoin(lines: seq<string>, fence: string, tail: string)
    requires lines != [] && 1 < |fence| && fence[0] == '\n' && fence <= tail
    requires forall i :: 0 <= i < |lines| ==> SingleLine(lines[i])
    requires forall i :: 1 <= i < |lines| ==> lines[i] != "" && lines[i][0] != fence[1]
    ensures FindFirst(Closes(fence), Join(lines) + tail) == Some(|Join(lines)|)
    decreases |lines|
  {
    var at := Closes(fence);
    ClosesAtLineEnd(fence);
    if |lines| == 1 {
      FirstSkips(at, lines[0], tail);
    } else {
      var inner := Join(lines[1..]);
      CloseOfJoin(lines[1..], fence, tail);
      JoinStarts(lines[1..]);
      NoCloseHere(inner + tail, fence);
      FirstOfCons(at, lines[0], inner + tail, ['\n'] + (inner + tail));
      Regroup(lines[0], inner, tail);
    }
  }

  // ---------- Reading back what was built ----------

  lemma WordIsKey(t: string)
    requires IsWord(t)
    ensures IsKey(t) && SingleLine(t) && t[0] != '-' && Trimmed(t)
  {
  }

  lemma WordReads(t: string)
    requires IsWord(t)
    ensures !HasTerminator(t) && ExpandTabs(t) == t && StripQuotes(t) == t
  {
    ExpandTabsPlain(t);
  }

  lemma {:induction false} WordLowers(t: string)
    requires forall i :: 0 <= i < |t| ==> t[i] == '_' || 'a' <= t[i] <= 'z'
    ensures ToLower(t) == t
  {
    if t != "" {
      WordLowers(t[1..]);
      assert LowerCase(t[0]) == [t[0]];
    }
  }

  lemma WordFolds(t: string)
    requires IsWord(t)
    ensures ToLower(Trim(t)) == t
  {
    WordIsKey(t);
    TrimOfTrimmed(t);
    WordLowers(t);
  }

  lemma NameIsWord(w: Words, p: Policy)
    requires Good(w)
    ensures IsWord(PolicyName(w, p))
  {
  }

  lemma EntryIsSingleLine(key: string, value: string)
    requires IsKey(key) && SingleLine(value)
    ensures SingleLine(EntryLine(key, value)) && EntryLine(key, value) != "" && EntryLine(key, value)[0] != '-'
  {
  }

  lemma {:induction false} TrimKeeps(t: string)
    requires SingleLine(t)
    ensures SingleLine(Trim(t)) && Trimmed(Trim(t))
  {
    var s := TrimStart(t);
    assert SingleLine(s);
    assert Trim(t) <= s;
  }

  lemma SafeCommandIsSafe(command: string)
    ensures SingleLine(SafeCommand(command)) && Trimmed(SafeCommand(command))
  {
    TrimKeeps(Flatten(command));
  }

  predicate FrontLines(lines: seq<string>) {
    && (forall i :: 0 <= i < |lines| ==> SingleLine(lines[i]))
    && (forall i :: 1 <= i < |lines| ==> lines[i] != "" && lines[i][0] != '-')
  }

  lemma BuiltLinesAreSingle(w: Words, command: string, policy: Policy)
    requires Good(w) && SingleLine(command)
    ensures FrontLines(BuiltLines(w, command, policy))
  {
    WordIsSingleLine(w.evaluator);
    WordEntryIsSingle(w.command, command);
    WordIsSingleLine(w.json);
    WordEntryIsSingle(w.format, w.json);
    NameIsWord(w, policy);
    WordIsSingleLine(PolicyName(w, policy));
    WordEntryIsSingle(w.keepPolicy, PolicyName(w, policy));
  }

  lemma WordIsSingleLine(t: string)
    requires IsWord(t)
    ensures SingleLine(t) && SingleLine(t + [':'])
  {
  }

  lemma WordEntryIsSingle(key: string, value: string)
    requires IsWord(key) && SingleLine(value)
    ensures SingleLine(EntryLine(key, value)) && EntryLine(key, value) != "" && EntryLine(key, value)[0] != '-'
  {
    WordIsKey(key);
    EntryIsSingleLine(key, value);
  }

  lemma OpeningBuilt(marker: string, rest: string)
    ensures AfterOpening((marker + ['\n']) + rest, marker) == Some(rest)
  {
    var content := (marker + ['\n']) + rest;
    assert content == marker + (['\n'] + rest);
    assert content[|marker|..] == ['\n'] + rest && (['\n'] + rest)[1..] == rest;
  }

  lemma SplitBuilt(front: string, fence: string, end: string)
    requires FindFirst(Closes(fence), front + (fence + end)) == Some(|front|)
    ensures SplitAtClose(front + (fence + end), fence) == Some((front, end))
  {
    var t := front + (fence + end);
    assert t[..|front|] == front && t[|front|..] == fence + end && (fence + end)[|fence|..] == end;
  }

  /** The front matter between two markers is found whatever its lines say. */
  lemma ExtractFramed(lines: seq<string>, marker: string)
    requires lines != [] && FrontLines(lines) && marker != "" && marker[0] == '-'
    ensures Extract(Framed(Join(lines), marker), marker) == Some((Join(lines), ""))
  {
    var front, fence := Join(lines), ['\n'] + marker;
    CloseOfJoin(lines, fence, fence + ['\n']);
    OpeningBuilt(marker, front + (fence + ['\n']));
    SplitBuilt(front, fence, ['\n']);
    assert SkipLineEnd(['\n']) == "";
  }

  lemma FoldFour(a: Line, b: Line, c: Line, d: Line)
    ensures Fold([a, b, c, d], Initial()) ==
            var s1 := Step(Initial(), a);
            if s1.Err? then s1 else
            var s2 := Step(s1.value, b);
            if s2.Err? then s2 else
            var s3 := Step(s2.value, c);
            if s3.Err? then s3 else Step(s3.value, d)
  {
    FoldCons(a, [b, c, d], Initial());
    var s1 := Step(Initial(), a);
    if s1.Ok? {
      FoldCons(b, [c, d], s1.value);
      var s2 := Step(s1.value, b);
      if s2.Ok? {
        FoldCons(c, [d], s2.value);
        var s3 := Step(s2.value, c);
        if s3.Ok? {
          FoldCons(d, [], s3.value);
        }
      }
    }
    assert [a, b, c, d] == [a] + [b, c, d] && [b, c, d] == [b] + [c, d] && [c, d] == [c] + [d] && [d] == [d] + [];
  }

  lemma FoldCons(line: Line, rest: seq<Line>, st: State)
    requires Sound(st)
    ensures Fold([line] + rest, st) == var next := Step(st, line); if next.Err? then next else Fold(rest, next.value)
  {
    assert ([line] + rest)[1..] == rest;
  }

  function BuiltEntries(w: Words, value: string, policy: Policy): map<string, string> {
    map[w.command := value, w.format := w.json, w.keepPolicy := PolicyName(w, policy)]
  }

  /** The front matter that a built text with this command value yields. */
  function BuiltFrontmatter(w: Words, value: string, policy: Policy): map<string, Value> {
    map[w.evaluator := Section(BuiltEntries(w, value, policy))]
  }

  lemma WordEntry(key: string, value: string)
    requires IsWord(key) && IsWord(value)
    ensures Classify(EntryLine(key, value)) == Entry(key, value, true, key + [':', ' '] + value)
  {
    WordIsKey(key);
    WordIsKey(value);
    WordReads(value);
    FilledEntry(key, value);
  }

  /** The lines around the command mean what they say. */
  lemma ClassifyBuilt(w: Words, command: string, policy: Policy)
    requires Good(w)
    ensures ClassifyAll(BuiltLines(w, command, policy)) ==
            [Header(w.evaluator), Classify(EntryLine(w.command, command)), TailEntry(w.format, w.json),
             TailEntry(w.keepPolicy, PolicyName(w, policy))]
  {
    WordIsKey(w.evaluator);
    SectionLine(w.evaluator);
    WordEntry(w.format, w.json);
    NameIsWord(w, policy);
    WordEntry(w.keepPolicy, PolicyName(w, policy));
    EachOfFour(Classify, w.evaluator + [':'], EntryLine(w.command, command), EntryLine(w.format, w.json),
               EntryLine(w.keepPolicy, PolicyName(w, policy)));
  }

  lemma EachOfFour<T, U>(f: T -> U, a: T, b: T, c: T, d: T)
    ensures Each(f, [a, b, c, d]) == [f(a), f(b), f(c), f(d)]
  {
  }

  function TailEntry(key: string, value: string): Line {
    Entry(key, value, true, key + [':', ' '] + value)
  }

  /** An empty command opens a section that takes the other two entries. */
  lemma FoldEmpty(w: Words, c: Line, d: Line)
    requires w.evaluator != w.command && c.Entry? && c.indented && d.Entry? && d.indented
    ensures var end := Fold([Header(w.evaluator), Header(w.command), c, d], Initial());
            end.Ok? && w.evaluator in end.value.entries && end.value.entries[w.evaluator] == Section(map[])
  {
    FoldFour(Header(w.evaluator), Header(w.command), c, d);
  }

  lemma FoldBad(w: Words, text: string, c: Line, d: Line)
    ensures Fold([Header(w.evaluator), Unsupported(text), c, d], Initial()) == Err(UnsupportedLine(text))
  {
    FoldFour(Header(w.evaluator), Unsupported(text), c, d);
  }

  lemma FoldFilled(w: Words, b: Line, c: Line, d: Line)
    requires b.Entry? && b.indented && c.Entry? && c.indented && d.Entry? && d.indented
    ensures var end := Fold([Header(w.evaluator), b, c, d], Initial());
            end.Ok? && end.value.entries == map[w.evaluator := Section(map[b.key := b.value][c.key := c.value][d.key := d.value])]
  {
    FoldFour(Header(w.evaluator), b, c, d);
  }

  lemma EntriesOf(w: Words, value: string, policy: Policy)
    ensures map[w.command := value][w.format := w.json][w.keepPolicy := PolicyName(w, policy)] == BuiltEntries(w, value, policy)
  {
  }

  /** What the front matter of a built text gives. */
  lemma FoldBuilt(w: Words, command: string, policy: Policy)
    requires Good(w) && Trimmed(command)
    ensures var v := ExpandTabs(command);
            var end := Fold(ClassifyAll(BuiltLines(w, command, policy)), Initial());
            if command == "" then
              end.Ok? && w.evaluator in end.value.entries && end.value.entries[w.evaluator] == Section(map[])
            else if HasTerminator(v) then end == Err(UnsupportedLine(w.command + [':', ' '] + v))
            else end.Ok? && end.value.entries == BuiltFrontmatter(w, StripQuotes(v), policy)
  {
    var c, d := TailEntry(w.format, w.json), TailEntry(w.keepPolicy, PolicyName(w, policy));
    ClassifyBuilt(w, command, policy);
    WordIsKey(w.command);
    if command == "" {
      EmptyEntry(w.command);
      FoldEmpty(w, c, d);
    } else {
      var v := ExpandTabs(command);
      var text := w.command + [':', ' '] + v;
      FilledEntry(w.command, command);
      if HasTerminator(v) {
        FoldBad(w, text, c, d);
      } else {
        FoldFilled(w, Entry(w.command, StripQuotes(v), true, text), c, d);
        EntriesOf(w, StripQuotes(v), policy);
      }
    }
  }

  lemma ParsePolicyName(w: Words, policy: Policy)
    requires Good(w)
    ensures ParsePolicy(w, Some(PolicyName(w, policy))) == Ok(Some(policy))
  {
    NameIsWord(w, policy);
    WordFolds(PolicyName(w, policy));
  }

  lemma InterpretBuilt(w: Words, value: string, policy: Policy)
    requires Good(w)
    ensures Interpret(w, BuiltFrontmatter(w, value, policy), "") ==
            if Trim(value) == "" then Err(NoCommand)
            else Ok(Contract(Trim(value), Some(policy), BuiltFrontmatter(w, value, policy), ""))
  {
    LookUps(w, value, policy);
    WordFolds(w.json);
    ParsePolicyName(w, policy);
    EvaluateFound(w, BuiltEntries(w, value, policy), value, policy, BuiltFrontmatter(w, value, policy));
  }

  lemma EvaluateFound(w: Words, entries: map<string, string>, value: string, policy: Policy, frontmatter: map<string, Value>)
    requires GetOrEmpty(entries, w.command) == value && GetOrEmpty(entries, w.format) == w.json
    requires ToLower(Trim(w.json)) == w.json != ""
    requires ParsePolicy(w, Get(entries, w.keepPolicy)) == Ok(Some(policy))
    ensures Evaluate(w, entries, frontmatter, "") ==
            if Trim(value) == "" then Err(NoCommand) else Ok(Contract(Trim(value), Some(policy), frontmatter, ""))
  {
  }

  lemma LookUps(w: Words, value: string, policy: Policy)
    requires w.command != w.format && w.command != w.keepPolicy && w.format != w.keepPolicy
    ensures var entries := BuiltEntries(w, value, policy);
            GetOrEmpty(entries, w.command) == value && GetOrEmpty(entries, w.format) == w.json
            && Get(entries, w.keepPolicy) == Some(PolicyName(w, policy))
  {
  }

  lemma InterpretEmpty(w: Words, frontmatter: map<string, Value>)
    requires w.evaluator in frontmatter && frontmatter[w.evaluator] == Section(map[])
    ensures Interpret(w, frontmatter, "") == Err(NoCommand)
  {
  }

  /** What reading a built text gives, for every command and policy: the command with tabs expanded and outer
      quotes stripped, always under the chosen policy, or one of two errors. */
  lemma ParseBuilt(w: Words, command: string, policy: Policy)
    requires Good(w)
    ensures var v := ExpandTabs(SafeCommand(command));
            var read := Trim(StripQuotes(v));
            Parse(w, Build(w, command, policy)) ==
            if HasTerminator(v) then Err(UnsupportedLine(w.command + [':', ' '] + v))
            else if read == "" then Err(NoCommand)
            else Ok(Contract(read, Some(policy), BuiltFrontmatter(w, StripQuotes(v), policy), ""))
  {
    var safe := SafeCommand(command);
    SafeCommandIsSafe(command);
    var end := FrontOfBuilt(w, safe, policy);
    OutcomeOf(w, safe, ExpandTabs(safe), policy, end);
  }

  lemma OutcomeOf(w: Words, command: string, v: string, policy: Policy, end: Result<State, Error>)
    requires Good(w) && (command == "" ==> v == "")
    requires if command == "" then
               end.Ok? && w.evaluator in end.value.entries && end.value.entries[w.evaluator] == Section(map[])
             else if HasTerminator(v) then end == Err(UnsupportedLine(w.command + [':', ' '] + v))
             else end.Ok? && end.value.entries == BuiltFrontmatter(w, StripQuotes(v), policy)
    ensures var read := Trim(StripQuotes(v));
            (if end.Err? then Err(end.error) else Interpret(w, end.value.entries, "")) ==
            if HasTerminator(v) then Err(UnsupportedLine(w.command + [':', ' '] + v))
            else if read == "" then Err(NoCommand)
            else Ok(Contract(read, Some(policy), BuiltFrontmatter(w, StripQuotes(v), policy), ""))
  {
    if command == "" {
      InterpretEmpty(w, end.value.entries);
    } else {
      InterpretBuilt(w, StripQuotes(v), policy);
    }
  }

  lemma FrontOfBuilt(w: Words, command: string, policy: Policy) returns (end: Result<State, Error>)
    requires Good(w) && SingleLine(command) && Trimmed(command)
    ensures Parse(w, Framed(Join(BuiltLines(w, command, policy)), w.marker)) ==
            if end.Err? then Err(end.error) else Interpret(w, end.value.entries, "")
    ensures var v := ExpandTabs(command);
            if command == "" then
              end.Ok? && w.evaluator in end.value.entries && end.value.entries[w.evaluator] == Section(map[])
            else if HasTerminator(v) then end == Err(UnsupportedLine(w.command + [':', ' '] + v))
            else end.Ok? && end.value.entries == BuiltFrontmatter(w, StripQuotes(v), policy)
  {
    ReadBuilt(w, command, policy);
    var lines := BuiltLines(w, command, policy);
    ParseOf(w, Framed(Join(lines), w.marker), Join(lines), "");
    FoldBuilt(w, command, policy);
    end := Fold(ClassifyAll(lines), Initial());
  }

  lemma ParseOf(w: Words, content: string, front: string, body: string)
    requires Extract(content, w.marker) == Some((front, body))
    ensures var end := Fold(ClassifyAll(Lines(front)), Initial());
            Parse(w, content) == if end.Err? then Err(end.error) else Interpret(w, end.value.entries, body)
  {
  }

  lemma ReadBuilt(w: Words, command: string, policy: Policy)
    requires Good(w) && SingleLine(command)
    ensures var lines := BuiltLines(w, command, policy);
            Extract(Framed(Join(lines), w.marker), w.marker) == Some((Join(lines), "")) && Lines(Join(lines)) == lines
  {
    var lines := BuiltLines(w, command, policy);
    BuiltLinesAreSingle(w, command, policy);
    ExtractFramed(lines, w.marker);
    LinesOfJoin(lines);
  }

  /** The commands that survive the round trip. */
  predicate Plain(command: string) {
    && command != "" && Trim(command) == command && '\t' !in command && !HasTerminator(command)
    && !IsQuote(command[0]) && !IsQuote(command[|command| - 1])
  }

  /** A built text reads back as exactly its command, JSON and its policy iff the command is plain. */
  lemma RoundTripIff(command: string, policy: Policy)
    ensures var w := SandboxWords();
            var r := Parse(w, Build(w, command, policy));
            (r.Ok? && r.value.command == command && r.value.policy == Some(policy)) <==> Plain(command)
  {
    WordsAreGood();
    ParseBuilt(SandboxWords(), command, policy);
    SurvivesIff(command);
  }

  lemma SurvivesIff(command: string)
    ensures (var v := ExpandTabs(SafeCommand(command)); !HasTerminator(v) && command != "" && Trim(StripQuotes(v)) == command)
            <==> Plain(command)
  {
    if Plain(command) {
      PlainSurvives(command);
    }
    if command != "" {
      OnlyPlainSurvives(command, ExpandTabs(SafeCommand(command)));
    }
  }

  lemma FlattenPlain(t: string)
    requires !HasTerminator(t)
    ensures Flatten(t) == t
  {
    forall i | 0 <= i < |t| ensures Flatten(t)[i] == t[i] {
      assert !IsTerminator(t[i]);
    }
  }

  lemma SafePlain(command: string)
    requires Plain(command)
    ensures SafeCommand(command) == command && ExpandTabs(command) == command
  {
    FlattenPlain(command);
    ExpandTabsPlain(command);
  }

  lemma StripPlain(t: string)
    requires t != "" && !IsQuote(t[0]) && !IsQuote(t[|t| - 1])
    ensures StripQuotes(t) == t
  {
  }

  lemma PlainSurvives(command: string)
    requires Plain(command)
    ensures var v := ExpandTabs(SafeCommand(command)); !HasTerminator(v) && Trim(StripQuotes(v)) == command
  {
    SafePlain(command);
    StripPlain(command);
  }

  lemma OnlyPlainSurvives(command: string, v: string)
    requires command != "" && v == ExpandTabs(SafeCommand(command))
    ensures !HasTerminator(v) && Trim(StripQuotes(v)) == command ==> Plain(command)
  {
    if !HasTerminator(v) && Trim(StripQuotes(v)) == command {
      StripKeeps(v);
      TrimOfTrimmed(command);
      FlattenPlain(command);
      ExpandTabsPlain(command);
      StripLength(command);
    }
  }

  ghost predicate Within(a: string, b: string) {
    forall c :: c in a ==> c in b
  }

  lemma TrimWithin(t: string)
    ensures Within(Trim(t), t) && Trimmed(Trim(t))
  {
    var s := TrimStart(t);
    forall c | c in Trim(t) ensures c in t {
      assert c in s;
    }
  }

  lemma StripWithin(t: string)
    ensures Within(StripQuotes(t), t)
  {
  }

  lemma WithinTerminator(a: string, b: string)
    requires Within(a, b)
    ensures (HasTerminator(a) ==> HasTerminator(b)) && ('\t' in a ==> '\t' in b)
  {
    if HasTerminator(a) {
      var i :| 0 <= i < |a| && IsTerminator(a[i]);
      assert a[i] in b;
    }
  }

  lemma StripKeeps(v: string)
    ensures var d := Trim(StripQuotes(v)); (HasTerminator(d) ==> HasTerminator(v)) && ('\t' in d ==> '\t' in v) && Trimmed(d)
  {
    var u := StripQuotes(v);
    StripWithin(v);
    WithinTerminator(u, v);
    TrimWithin(u);
    WithinTerminator(Trim(u), u);
  }

  lemma TrimIsShorter(t: string)
    ensures |Trim(t)| <= |t|
  {
  }

  lemma StripShortens(t: string)
    requires t != "" && (IsQuote(t[0]) || IsQuote(t[|t| - 1]))
    ensures |StripQuotes(t)| < |t|
  {
  }

  lemma StripLength(t: string)
    requires Trim(StripQuotes(t)) == t && t != ""
    ensures !IsQuote(t[0]) && !IsQuote(t[|t| - 1])
  {
    TrimIsShorter(StripQuotes(t));
    if IsQuote(t[0]) || IsQuote(t[|t| - 1]) {
      StripShortens(t);
    }
  }

  // ---------- What any text reads as ----------

  /** A policy entry that is accepted: missing, blank, or one of the two names in any case. */
  predicate PolicyFits(w: Words, raw: Option<string>) {
    raw.None? || ToLower(Trim(raw.value)) == "" || IsPolicy(raw, w.passOnly) || IsPolicy(raw, w.scoreImprovement)
  }

  predicate IsPolicy(raw: Option<string>, name: string) {
    raw.Some? && ToLower(Trim(raw.value)) == name
  }

  lemma PolicyRead(w: Words, raw: Option<string>)
    requires w.passOnly != w.scoreImprovement && w.passOnly != "" && w.scoreImprovement != ""
    ensures var r := ParsePolicy(w, raw);
            && (if PolicyFits(w, raw) then r.Ok? else r == Err(BadPolicy))
            && (r == Ok(Some(PassOnly)) <==> IsPolicy(raw, w.passOnly))
            && (r == Ok(Some(ScoreImprovement)) <==> IsPolicy(raw, w.scoreImprovement))
  {
  }

  /** The command and the format an evaluator section gives. */
  predicate Gives(w: Words, entries: map<string, string>, command: string, format: string) {
    command == Trim(GetOrEmpty(entries, w.command)) && format == ToLower(Trim(GetOrEmpty(entries, w.format)))
  }

  /** The contract or the error that an evaluator section with this command and format comes to; `fits` says whether its
      policy entry is accepted, `pass` and `score` whether it names one of the two policies. */
  ghost predicate Comes(w: Words, r: Result<Contract, Error>, command: string, format: string, fits: bool, pass: bool, score: bool) {
    && (r == Err(BadPolicy) <==> !fits)
    && (r == Err(NoCommand) <==> fits && command == "")
    && (r == Err(NoFormat) <==> fits && command != "" && format == "")
    && (r == Err(FormatNotJson) <==> fits && command != "" && format != "" && format != w.json)
    && (r.Ok? <==> fits && command != "" && format == w.json)
    && (r.Ok? ==>
          && r.value.command == command
          && (r.value.policy == Some(PassOnly) <==> pass) && (r.value.policy == Some(ScoreImprovement) <==> score))
  }

  /** What an evaluator section must hold: a fitting policy, a command and the format JSON; the first of these that is
      missing gives the error, and nothing else does. */
  lemma AcceptedIff(w: Words, entries: map<string, string>, command: string, format: string, frontmatter: map<string, Value>,
                    body: string)
    requires w.passOnly != w.scoreImprovement && w.passOnly != "" && w.scoreImprovement != "" && w.json != ""
    requires w.evaluator in frontmatter && frontmatter[w.evaluator] == Section(entries) && Gives(w, entries, command, format)
    ensures var policy := Get(entries, w.keepPolicy);
            Comes(w, Interpret(w, frontmatter, body), command, format, PolicyFits(w, policy), IsPolicy(policy, w.passOnly),
                  IsPolicy(policy, w.scoreImprovement))
    ensures Interpret(w, frontmatter, body).Ok? ==>
              Interpret(w, frontmatter, body).value.frontmatter == frontmatter && Interpret(w, frontmatter, body).value.body == body
  {
    var policy := Get(entries, w.keepPolicy);
    PolicyRead(w, policy);
    Verdicts(w, command, format, ParsePolicy(w, policy), frontmatter, body, Interpret(w, frontmatter, body),
             IsPolicy(policy, w.passOnly), IsPolicy(policy, w.scoreImprovement));
  }

  lemma Verdicts(w: Words, command: string, format: string, policy: Result<Option<Policy>, Error>, frontmatter: map<string, Value>,
                 body: string, r: Result<Contract, Error>, pass: bool, score: bool)
    requires w.json != ""
    requires r == if policy.Err? then Err(policy.error) else if command == "" then Err(NoCommand)
                  else if format == "" then Err(NoFormat) else if format != w.json then Err(FormatNotJson)
                  else Ok(Contract(command, policy.value, frontmatter, body))
    requires policy.Err? ==> policy.error == BadPolicy
    requires (policy == Ok(Some(PassOnly)) <==> pass) && (policy == Ok(Some(ScoreImprovement)) <==> score)
    ensures Comes(w, r, command, format, policy.Ok?, pass, score)
  {
  }

  /** Without an evaluator section there is no contract. */
  lemma NeedsEvaluator(w: Words, frontmatter: map<string, Value>, body: string)
    requires w.evaluator !in frontmatter || frontmatter[w.evaluator].Scalar?
    ensures Interpret(w, frontmatter, body) == Err(NoEvaluator)
  {
  }

  /** A key, a colon, spaces and a value. */
  predicate KeyAndValue(text: string, key: string, gap: string, value: string) {
    && text == key + [':'] + gap + value && IsKey(key)
    && (forall i :: 0 <= i < |gap| ==> IsSpace(gap[i])) && (value != "" ==> !IsSpace(value[0]))
  }

  lemma {:induction false} TrimStartOf(gap: string, value: string)
    requires (forall i :: 0 <= i < |gap| ==> IsSpace(gap[i])) && (value != "" ==> !IsSpace(value[0]))
    ensures TrimStart(gap + value) == value
    decreases |gap|
  {
    if gap == "" {
      assert gap + value == value;
    } else {
      assert (gap + value)[1..] == gap[1..] + value;
      TrimStartOf(gap[1..], value);
    }
  }

  lemma {:induction false} TrimStartDrops(t: string)
    ensures forall i :: 0 <= i < |t| - |TrimStart(t)| ==> IsSpace(t[i])
  {
    if t != "" && IsSpace(t[0]) {
      TrimStartDrops(t[1..]);
    }
  }

  lemma KeyAndValueReads(text: string, key: string, gap: string, value: string, indented: bool)
    requires KeyAndValue(text, key, gap, value)
    ensures ClassifyText(text, indented) ==
            if value == "" then Header(key)
            else if HasTerminator(value) then Unsupported(text)
            else Entry(key, StripQuotes(value), indented, text)
  {
    var rest := [':'] + (gap + value);
    BehindColon(key, gap, value, rest);
    KeySplit(key, rest, text);
    TrimStartOf(gap, value);
    ClassifyAt(text, |key|, indented);
    EntryOf(key, value, indented, text);
  }

  lemma BehindColon(key: string, gap: string, value: string, rest: string)
    requires rest == [':'] + (gap + value)
    ensures key + [':'] + gap + value == key + rest && rest[1..] == gap + value
  {
  }

  lemma EntryOf(key: string, value: string, indented: bool, text: string)
    ensures ClassifyEntry(key, value, indented, text) ==
            if value == "" then Header(key)
            else if HasTerminator(value) then Unsupported(text)
            else Entry(key, StripQuotes(value), indented, text)
  {
  }

  lemma SplitGap(rest: string) returns (gap: string, value: string)
    ensures rest == gap + value && (forall i :: 0 <= i < |gap| ==> IsSpace(gap[i])) && (value != "" ==> !IsSpace(value[0]))
  {
    TrimStartDrops(rest);
    value := TrimStart(rest);
    gap := rest[..|rest| - |value|];
  }

  lemma SplitAt(text: string, n: nat)
    requires n < |text|
    ensures text == text[..n] + [text[n]] + text[n + 1..]
  {
  }

  lemma SplitKey(text: string) returns (key: string, gap: string, value: string)
    requires var n := KeyLength(text); 0 < n < |text| && text[n] == ':'
    ensures KeyAndValue(text, key, gap, value)
  {
    var n := KeyLength(text);
    key := text[..n];
    SplitAt(text, n);
    gap, value := SplitGap(text[n + 1..]);
    Associative(key + [':'], gap, value);
  }

  /** A line means nothing iff it is blank or a comment; otherwise it is read as a key, a colon and what follows it, a
      section if nothing does and an entry else; any other line, and one whose value holds a line terminator, is
      refused. */
  lemma ClassifyIff(text: string, indented: bool)
    ensures var line := ClassifyText(text, indented);
            && (line.Blank? <==> text == "" || text[0] == '#')
            && (forall key :: line == Header(key) <==> exists gap :: KeyAndValue(text, key, gap, ""))
            && (line.Entry? <==> exists key, gap, value :: KeyAndValue(text, key, gap, value) && value != "" && !HasTerminator(value))
            && (line.Entry? ==> line.indented == indented && line.text == text)
            && (line.Unsupported? ==> line.text == text)
  {
    forall key, gap, value | KeyAndValue(text, key, gap, value)
      ensures ClassifyText(text, indented) ==
              if value == "" then Header(key)
              else if HasTerminator(value) then Unsupported(text)
              else Entry(key, StripQuotes(value), indented, text)
    {
      KeyAndValueReads(text, key, gap, value, indented);
    }
    var n := KeyLength(text);
    if text != "" && text[0] != '#' && 0 < n < |text| && text[n] == ':' {
      var key, gap, value := SplitKey(text);
    }
  }

  /** A tab counts as two blanks wherever it stands. */
  lemma TabIsTwoBlanks(a: string, b: string)
    ensures ExpandTabs(a + ['\t'] + b) == ExpandTabs(a) + "  " + ExpandTabs(b)
  {
    ExpandTabsConcat(a + ['\t'], b);
    ExpandTabsConcat(a, ['\t']);
    assert ExpandTabs(['\t']) == "  ";
  }

  /** A line is read trimmed, with its tabs as blanks, and counts as indented iff it starts with a blank or a tab. */
  lemma ClassifyIs(raw: string)
    ensures Classify(raw) == ClassifyText(Trim(ExpandTabs(raw)), raw != "" && (raw[0] == ' ' || raw[0] == '\t'))
  {
    IndentIff(raw, ExpandTabs(raw));
  }

  lemma IndentIff(raw: string, line: string)
    requires line == ExpandTabs(raw)
    ensures (line != "" <==> raw != "") && (line != "" ==> (line[0] == ' ' <==> raw[0] == ' ' || raw[0] == '\t'))
  {
  }

  // ---------- Sections ----------

  lemma {:induction false} FoldConcat(a: seq<Line>, b: seq<Line>, st: State)
    requires Sound(st)
    ensures Fold(a + b, st) == var r := Fold(a, st); if r.Err? then r else Fold(b, r.value)
    decreases |a|
  {
    if a == [] {
      assert a + b == b;
    } else {
      assert (a + b)[0] == a[0] && (a + b)[1..] == a[1..] + b;
      var next := Step(st, a[0]);
      if next.Ok? {
        FoldConcat(a[1..], b, next.value);
      }
    }
  }

  lemma FoldSnoc(lines: seq<Line>, line: Line)
    ensures Fold(lines + [line], Initial()) == var r := Fold(lines, Initial()); if r.Err? then r else Step(r.value, line)
  {
    FoldConcat(lines, [line], Initial());
    var r := Fold(lines, Initial());
    if r.Ok? {
      FoldCons(line, [], r.value);
      assert [line] + [] == [line];
    }
  }

  /** The section open after some lines: that of the last header, unless an unindented entry closed it. */
  function OpenSection(lines: seq<Line>): Option<string> {
    if lines == [] then None
    else
      var last := lines[|lines| - 1];
      if last.Header? then Some(last.key)
      else if last.Entry? && !last.indented then None
      else OpenSection(lines[..|lines| - 1])
  }

  /** A line that cannot be read where it stands. */
  predicate Fails(lines: seq<Line>, k: nat)
    requires k < |lines|
  {
    lines[k].Unsupported? || (lines[k].Entry? && lines[k].indented && OpenSection(lines[..k]).None?)
  }

  /** Lines are refused iff one of them is unsupported or is indented where no section is open. */
  lemma {:induction false} RefusedIff(lines: seq<Line>)
    ensures var r := Fold(lines, Initial());
            && (r.Ok? ==> r.value.section == OpenSection(lines))
            && (r.Err? <==> exists k :: 0 <= k < |lines| && Fails(lines, k))
    decreases |lines|
  {
    if lines != [] {
      var n := |lines| - 1;
      var init := lines[..n];
      RefusedIff(init);
      FoldSnoc(init, lines[n]);
      assert lines == init + [lines[n]];
      forall k | 0 <= k < n ensures Fails(lines, k) == Fails(init, k) {
        assert lines[..k] == init[..k];
      }
      assert Fails(lines, n) ==> exists k :: 0 <= k < |lines| && Fails(lines, k);
    }
  }

  /** The last value a block of lines gives each key. */
  function Filled(entries: map<string, string>, block: seq<Line>): map<string, string>
    decreases |block|
  {
    if block == [] then entries
    else Filled(if block[0].Entry? then entries[block[0].key := block[0].value] else entries, block[1..])
  }

  /** Blank lines and indented entries. */
  predicate IsBlock(block: seq<Line>) {
    forall i :: 0 <= i < |block| ==> block[i].Blank? || (block[i].Entry? && block[i].indented)
  }

  lemma {:induction false} BlockFills(block: seq<Line>, st: State, name: string)
    requires Sound(st) && st.section == Some(name) && IsBlock(block)
    ensures Fold(block, st) == Ok(st.(entries := st.entries[name := Section(Filled(st.entries[name].entries, block))]))
    decreases |block|
  {
    if block == [] {
      assert st.entries[name := Section(st.entries[name].entries)] == st.entries;
    } else {
      var next := Step(st, block[0]).value;
      BlockFills(block[1..], next, name);
      assert next.entries[name := Section(Filled(st.entries[name].entries, block))]
          == st.entries[name := Section(Filled(st.entries[name].entries, block))];
    }
  }

  /** Neither a header nor an unindented entry of that name. */
  predicate LeavesAlone(lines: seq<Line>, name: string) {
    forall i :: 0 <= i < |lines| ==>
                  !(lines[i].Header? && lines[i].key == name) && !(lines[i].Entry? && !lines[i].indented && lines[i].key == name)
  }

  lemma {:induction false} OtherLinesKeep(lines: seq<Line>, st: State, name: string)
    requires Sound(st) && name in st.entries && LeavesAlone(lines, name) && Fold(lines, st).Ok?
    requires st.section != Some(name) || (lines != [] && (lines[0].Header? || (lines[0].Entry? && !lines[0].indented)))
    ensures name in Fold(lines, st).value.entries && Fold(lines, st).value.entries[name] == st.entries[name]
    decreases |lines|
  {
    if lines != [] {
      OtherLinesKeep(lines[1..], Step(st, lines[0]).value, name);
    }
  }

  lemma HeaderOpens(before: seq<Line>, name: string, block: seq<Line>) returns (st: State)
    requires IsBlock(block) && Fold(before, Initial()).Ok?
    ensures Sound(st) && Fold((before + [Header(name)]) + block, Initial()) == Ok(st)
    ensures st.section == Some(name) && name in st.entries && st.entries[name] == Section(Filled(map[], block))
  {
    FoldSnoc(before, Header(name));
    var started := Fold(before + [Header(name)], Initial()).value;
    FoldConcat(before + [Header(name)], block, Initial());
    BlockFills(block, started, name);
    st := Fold((before + [Header(name)]) + block, Initial()).value;
  }

  /** A section holds exactly the entries of the block behind its last header, each key with its last value. */
  lemma SectionHolds(before: seq<Line>, name: string, block: seq<Line>, after: seq<Line>)
    requires IsBlock(block) && LeavesAlone(after, name)
    requires after != [] ==> after[0].Header? || (after[0].Entry? && !after[0].indented)
    requires Fold(((before + [Header(name)]) + block) + after, Initial()).Ok?
    ensures var entries := Fold(((before + [Header(name)]) + block) + after, Initial()).value.entries;
            name in entries && entries[name] == Section(Filled(map[], block))
  {
    FoldConcat((before + [Header(name)]) + block, after, Initial());
    FoldConcat(before + [Header(name)], block, Initial());
    FoldSnoc(before, Header(name));
    var st := HeaderOpens(before, name, block);
    if after != [] {
      OtherLinesKeep(after, st, name);
    }
  }

  /** What a block gives a key: the value of its last entry of that key, if it has one. */
  lemma {:induction false} FilledIs(entries: map<string, string>, block: seq<Line>, key: string, k: nat)
    requires k <= |block| && forall i :: k < i < |block| ==> !(block[i].Entry? && block[i].key == key)
    ensures var r := Filled(entries, block);
            && (k < |block| && block[k].Entry? && block[k].key == key ==> key in r && r[key] == block[k].value)
            && ((forall i :: 0 <= i < |block| ==> !(block[i].Entry? && block[i].key == key)) ==>
                  (key in r <==> key in entries) && (key in r ==> r[key] == entries[key]))
    decreases |block|
  {
    if block != [] {
      var next := if block[0].Entry? then entries[block[0].key := block[0].value] else entries;
      if k == 0 {
        FilledIs(next, block[1..], key, |block| - 1);
      } else {
        FilledIs(next, block[1..], key, k - 1);
      }
    }
  }

  // ---------- Line ends ----------

  /** Lines joined by line feeds, some of them behind a carriage return. */
  function JoinEnds(lines: seq<string>, crs: seq<bool>): string
    requires |lines| == |crs| + 1
  {
    if |lines| == 1 then lines[0]
    else lines[0] + (if crs[0] then ['\r', '\n'] else ['\n']) + JoinEnds(lines[1..], crs[1..])
  }

  lemma {:induction false} LinesOfReturned(line: string, t: string, rest: string)
    requires SingleLine(line) && SingleLine(t)
    ensures LinesFrom(line, t + ['\r', '\n'] + rest) == [line + t] + LinesFrom("", rest)
    decreases |t|
  {
    var all := t + ['\r', '\n'] + rest;
    if t == "" {
      assert all[1..] == ['\n'] + rest && all[1..][1..] == rest && line + t == line;
      assert DropReturn(line + ['\r']) == line;
      assert LinesFrom(line, all) == LinesFrom(line + ['\r'], all[1..]);
    } else {
      assert all[1..] == t[1..] + ['\r', '\n'] + rest;
      LinesOfReturned(line + [t[0]], t[1..], rest);
      assert line + [t[0]] + t[1..] == line + t;
    }
  }

  /** Splitting undoes joining, whichever line ends are used. */
  lemma {:induction false} LinesOfAnyEnds(lines: seq<string>, crs: seq<bool>)
    requires |lines| == |crs| + 1 && forall i :: 0 <= i < |lines| ==> SingleLine(lines[i])
    ensures Lines(JoinEnds(lines, crs)) == lines
    decreases |lines|
  {
    if |lines| == 1 {
      LinesOfSingle("", lines[0]);
      assert "" + lines[0] == lines[0] && [lines[0]] == lines;
    } else {
      var rest := JoinEnds(lines[1..], crs[1..]);
      LinesOfFirst("", lines[0], rest);
      LinesOfReturned("", lines[0], rest);
      LinesOfAnyEnds(lines[1..], crs[1..]);
      assert "" + lines[0] == lines[0] && [lines[0]] + lines[1..] == lines;
    }
  }

  // ---------- The front matter of any text ----------

  predicate IsLineEnd(t: string) {
    t == ['\n'] || t == ['\r', '\n']
  }

  /** A text cut at its markers. */
  datatype Cut = Cut(opening: string, front: string, closing: string, rest: string)

  ghost predicate IsCut(content: string, marker: string, c: Cut) {
    content == (marker + c.opening) + (c.front + (c.closing + marker + c.rest)) && IsLineEnd(c.opening) && IsLineEnd(c.closing)
  }

  lemma CutOpening(content: string, marker: string) returns (opening: string)
    requires AfterOpening(content, marker).Some?
    ensures IsLineEnd(opening) && content == (marker + opening) + AfterOpening(content, marker).value
  {
    var t, rest := content[|marker|..], AfterOpening(content, marker).value;
    opening := t[..|t| - |rest|];
    PrefixCut(content, marker);
    assert t == opening + rest;
    Associative(marker, opening, rest);
  }

  lemma OpeningIsFound(content: string, marker: string, opening: string, rest: string)
    requires IsLineEnd(opening) && content == (marker + opening) + rest
    ensures AfterOpening(content, marker) == Some(rest)
  {
    assert content[|marker|..] == opening + rest;
    assert content == marker + (opening + rest);
    if opening == ['\n'] {
      assert (opening + rest)[1..] == rest;
    } else {
      assert (opening + rest)[1..] == ['\n'] + rest && (opening + rest)[1..][1..] == rest;
    }
  }

  lemma {:induction false} FindFirstIs(at: string -> bool, t: string)
    ensures var r := FindFirst(at, t);
            && (r.None? <==> forall i :: 0 <= i <= |t| ==> !at(t[i..]))
            && (r.Some? ==> at(t[r.value..]) && forall i :: 0 <= i < r.value ==> !at(t[i..]))
  {
    assert t[0..] == t;
    if !at(t) && t != "" {
      FindFirstIs(at, t[1..]);
      assert forall i :: 1 <= i <= |t| ==> t[i..] == t[1..][i - 1..];
    }
  }

  lemma TrimSkipsSpace(t: string)
    requires t != "" && IsSpace(t[0])
    ensures TrimStart(t[1..]) == TrimStart(t)
  {
  }

  lemma TrimSkipped(t: string)
    ensures Trim(SkipLineEnd(t)) == Trim(t)
  {
    var u := if t != "" && t[0] == '\r' then t[1..] else t;
    if t != "" && t[0] == '\r' {
      TrimSkipsSpace(t);
    }
    if u != "" && u[0] == '\n' {
      TrimSkipsSpace(u);
    }
  }

  lemma CutAtClose(t: string, n: nat, marker: string) returns (closing: string)
    requires n <= |t| && Closes(['\n'] + marker)(t[n..])
    ensures var fence, after := ['\n'] + marker, t[n..];
            && IsLineEnd(closing)
            && t == t[..n] + (closing + marker + (if fence <= after then after[|fence|..] else after[|fence| + 1..]))
  {
    var fence, after := ['\n'] + marker, t[n..];
    closing := if fence <= after then ['\n'] else ['\r', '\n'];
    assert ['\r'] + fence == ['\r', '\n'] + marker;
    PrefixCut(after, closing + marker);
    assert t == t[..n] + after;
  }

  lemma PrefixCut(t: string, prefix: string)
    requires prefix <= t
    ensures t == prefix + t[|prefix|..]
  {
  }

  lemma ClosingIsFound(t: string, marker: string, front: string, closing: string, rest: string)
    requires IsLineEnd(closing) && t == front + (closing + marker + rest)
    ensures var r := SplitAtClose(t, ['\n'] + marker); r.Some? && |r.value.0| <= |front|
  {
    FindFirstIs(Closes(['\n'] + marker), t);
    assert t[|front|..] == closing + marker + rest;
    ClosesHere(closing, marker, rest);
  }

  lemma ClosesHere(closing: string, marker: string, rest: string)
    requires IsLineEnd(closing)
    ensures Closes(['\n'] + marker)(closing + marker + rest)
  {
    var t := closing + marker + rest;
    if closing == ['\n'] {
      assert ['\n'] + marker <= t;
    } else {
      assert ['\r'] + (['\n'] + marker) == closing + marker;
      assert closing + marker <= t;
    }
  }

  lemma ExtractParts(content: string, marker: string) returns (t: string, front: string, behind: string)
    requires Extract(content, marker).Some?
    ensures AfterOpening(content, marker) == Some(t) && SplitAtClose(t, ['\n'] + marker) == Some((front, behind))
    ensures Extract(content, marker).value == (front, Trim(SkipLineEnd(behind)))
  {
    t := AfterOpening(content, marker).value;
    var parts := SplitAtClose(t, ['\n'] + marker).value;
    front, behind := parts.0, parts.1;
  }

  lemma CutClosing(t: string, marker: string, front: string, behind: string) returns (closing: string)
    requires SplitAtClose(t, ['\n'] + marker) == Some((front, behind))
    ensures IsLineEnd(closing) && t == front + (closing + marker + behind)
  {
    closing := CutAtClose(t, |front|, marker);
  }

  lemma ExtractedIsCut(content: string, marker: string) returns (c: Cut)
    requires Extract(content, marker).Some?
    ensures IsCut(content, marker, c) && Extract(content, marker).value == (c.front, Trim(c.rest))
  {
    var t, front, behind := ExtractParts(content, marker);
    var opening := CutOpening(content, marker);
    var closing := CutClosing(t, marker, front, behind);
    TrimSkipped(behind);
    c := Cut(opening, front, closing, behind);
    IsCutWhen(content, marker, c, t);
  }

  lemma IsCutWhen(content: string, marker: string, c: Cut, t: string)
    requires content == (marker + c.opening) + t && t == c.front + (c.closing + marker + c.rest)
    requires IsLineEnd(c.opening) && IsLineEnd(c.closing)
    ensures IsCut(content, marker, c)
  {
  }

  lemma CutIsExtracted(content: string, marker: string, c: Cut)
    requires IsCut(content, marker, c)
    ensures Extract(content, marker).Some? && |Extract(content, marker).value.0| <= |c.front|
  {
    var t := c.front + (c.closing + marker + c.rest);
    OpeningIsFound(content, marker, c.opening, t);
    ClosingIsFound(t, marker, c.front, c.closing, c.rest);
  }

  /** Front matter is found iff the text can be cut at a marker that opens it and a marker at the start of a later
      line; it ends at the first such marker, and the body is the trimmed rest. */
  lemma ExtractIff(content: string, marker: string)
    ensures var r := Extract(content, marker);
            && (r.Some? <==> exists c :: IsCut(content, marker, c))
            && (r.Some? ==> exists c :: IsCut(content, marker, c) && r.value == (c.front, Trim(c.rest)))
            && (r.Some? ==> forall c :: IsCut(content, marker, c) ==> |r.value.0| <= |c.front|)
  {
    if Extract(content, marker).Some? {
      var c := ExtractedIsCut(content, marker);
    }
    forall c | IsCut(content, marker, c) ensures Extract(content, marker).Some? && |Extract(content, marker).value.0| <= |c.front| {
      CutIsExtracted(content, marker, c);
    }
  }
}
