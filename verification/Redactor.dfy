/** The streaming redactor that sits between a child's stderr and the terminal.

    Text arrives in arbitrary chunks and leaves as whole records.  A record runs to the first newline
    that cannot be followed by the value of a token field; a record that grows past a limit is
    suppressed, and only a small window of it is kept to find its end. */
module Redactor {
  import opened SecretPattern
  import opened Text

  const MAX_RECORD := 65536
  const SUPPRESSED := "[omx auth] oversized stderr record suppressed\n"

  /** What ends a record and what becomes of one: the test for text a secret may follow, the replacement
      of the secrets in a whole record, and the notice that stands for a suppressed record. */
  datatype Rules = Rules(incomplete: string -> bool, redact: string -> string, notice: string) {
    ghost predicate Valid() {
      forall t {:trigger Window(t)} :: incomplete(Window(t)) == incomplete(t)
    }
  }

  // ---------- Records ----------

  /** The least n > 0 such that t[..n] ends in a newline no secret value can follow; 0 if there is none.
      The search starts at prefixes longer than `from`. */
  function RecordEnd(rules: Rules, t: string, from: nat): (n: nat)
    requires from <= |t|
    ensures n == 0 || from < n <= |t|
    decreases |t| - from
  {
    if from == |t| then 0
    else if CompleteRecord(rules, t[..from + 1]) then from + 1
    else RecordEnd(rules, t, from + 1)
  }

  lemma {:induction false} RecordEndIsFirst(rules: Rules, t: string, from: nat)
    requires from <= |t|
    ensures var n := RecordEnd(rules, t, from);
            && (n != 0 ==> CompleteRecord(rules, t[..n]))
            && (forall k :: from < k <= |t| && (n == 0 || k < n) ==> !CompleteRecord(rules, t[..k]))
    decreases |t| - from
  {
    if from < |t| && !CompleteRecord(rules, t[..from + 1]) {
      RecordEndIsFirst(rules, t, from + 1);
    }
  }

  predicate CompleteRecord(rules: Rules, t: string) {
    EndsInNewline(t) && !rules.incomplete(t)
  }

  predicate EndsInNewline(t: string) {
    t != "" && t[|t| - 1] == '\n'
  }

  /** The text as a sequence of records; only the last one may be unfinished. */
  function Records(rules: Rules, t: string): (r: seq<string>)
    decreases |t|
  {
    if t == "" then []
    else
      var n := RecordEnd(rules, t, 0);
      if n == 0 then [t] else [t[..n]] + Records(rules, t[n..])
  }

  function Join(ts: seq<string>): string {
    if ts == [] then "" else ts[0] + Join(ts[1..])
  }

  lemma Associative(a: string, b: string, c: string)
    ensures a + b + c == a + (b + c)
  {
  }

  lemma EmptyEnds(t: string)
    ensures "" + t == t && t + "" == t
  {
  }

  lemma JoinFirst(t: string, ts: seq<string>)
    ensures Join([t] + ts) == t + Join(ts)
  {
    assert ([t] + ts)[1..] == ts;
  }

  /** What a record becomes on the terminal. */
  function Release(rules: Rules, record: string): string {
    if |record| > MAX_RECORD then rules.notice else rules.redact(record)
  }

  function ReleaseAll(rules: Rules, records: seq<string>): string {
    if records == [] then "" else Release(rules, records[0]) + ReleaseAll(rules, records[1..])
  }

  /** A record ends where it first can. */
  ghost predicate IsRecord(rules: Rules, record: string) {
    record != "" && forall k :: 0 < k < |record| ==> !CompleteRecord(rules, record[..k])
  }

  lemma FirstRecord(rules: Rules, text: string) returns (record: string, rest: string)
    requires RecordEnd(rules, text, 0) != 0
    ensures text == record + rest && |rest| < |text|
    ensures IsRecord(rules, record) && CompleteRecord(rules, record)
    ensures Records(rules, text) == [record] + Records(rules, rest)
  {
    var n := RecordEnd(rules, text, 0);
    RecordEndIsFirst(rules, text, 0);
    record, rest := text[..n], text[n..];
    forall k | 0 < k < n ensures !CompleteRecord(rules, record[..k]) {
      assert record[..k] == text[..k];
    }
  }

  ghost predicate ProperRecords(rules: Rules, records: seq<string>) {
    && (forall i :: 0 <= i < |records| ==> IsRecord(rules, records[i]))
    && (forall i :: 0 <= i < |records| - 1 ==> CompleteRecord(rules, records[i]))
  }

  lemma ProperFirst(rules: Rules, record: string, records: seq<string>)
    requires IsRecord(rules, record) && CompleteRecord(rules, record) && ProperRecords(rules, records)
    ensures ProperRecords(rules, [record] + records)
  {
  }

  /** Every text is cut into records, each ending as early as it can. */
  lemma {:induction false} RecordsPartition(rules: Rules, t: string)
    ensures Join(Records(rules, t)) == t && ProperRecords(rules, Records(rules, t))
    decreases |t|
  {
    if t != "" {
      if RecordEnd(rules, t, 0) == 0 {
        RecordEndIsFirst(rules, t, 0);
        JoinFirst(t, []);
        EmptyEnds(t);
        assert [t] + [] == [t];
      } else {
        var record, rest := FirstRecord(rules, t);
        RecordsPartition(rules, rest);
        JoinFirst(record, Records(rules, rest));
        ProperFirst(rules, record, Records(rules, rest));
      }
    }
  }

  /** With the pattern of the program: no record but the last ends where the value of a token field or a bearer token
      may follow, and every newline inside a record is at such a place. */
  lemma NoRecordSplitsAField(redact: string -> string, text: string, i: nat)
    requires i < |Records(Rules(Incomplete, redact, SUPPRESSED), text)|
    ensures var records := Records(Rules(Incomplete, redact, SUPPRESSED), text);
            && records[i] != ""
            && (i < |records| - 1 ==> EndsInNewline(records[i]) && !AwaitsSecret(records[i]))
            && (forall k :: 0 < k < |records[i]| && records[i][k - 1] == '\n' ==> AwaitsSecret(records[i][..k]))
  {
    var rules := Rules(Incomplete, redact, SUPPRESSED);
    var records := Records(rules, text);
    RecordsPartition(rules, text);
    IncompleteIff(records[i]);
    forall k | 0 < k < |records[i]| && records[i][k - 1] == '\n' ensures AwaitsSecret(records[i][..k]) {
      assert !CompleteRecord(rules, records[i][..k]);
      IncompleteIff(records[i][..k]);
    }
  }

  /** What is released is one piece a record: the notice if the record is longer than 65536, else the record with its
      secrets replaced. */
  lemma {:induction false} OnePieceARecord(rules: Rules, records: seq<string>) returns (pieces: seq<string>)
    ensures ReleaseAll(rules, records) == Join(pieces) && |pieces| == |records|
    ensures forall i :: 0 <= i < |records| ==>
              pieces[i] == if |records[i]| > 65536 then rules.notice else rules.redact(records[i])
  {
    pieces := [];
    if records != [] {
      var rest := OnePieceARecord(rules, records[1..]);
      pieces := [Release(rules, records[0])] + rest;
      JoinFirst(Release(rules, records[0]), rest);
    }
  }

  // ---------- The streaming machine ----------

  datatype State = State(pending: string, dropping: bool, window: string, emitted: string)

  /** One newline-terminated or trailing part of a chunk. */
  function Accept(rules: Rules, s: State, part: string): State {
    if s.dropping then
      var window := AppendWindow(s.window, part);
      if !EndsInNewline(part) || rules.incomplete(window) then s.(window := window)
      else s.(dropping := false, window := "")
    else
      var pending := s.pending + part;
      if |pending| > MAX_RECORD then
        var window := AppendWindow("", pending);
        var s' := s.(pending := "", emitted := s.emitted + rules.notice);
        if EndsInNewline(part) && !rules.incomplete(window) then s'.(window := "", dropping := false)
        else s'.(window := window, dropping := true)
      else if EndsInNewline(part) && !rules.incomplete(pending) then
        s.(pending := "", emitted := s.emitted + rules.redact(pending))
      else s.(pending := pending)
  }

  /** The state after releasing `done` while the record `open` is unfinished. */
  function StateOf(rules: Rules, done: string, open: string): State {
    if |open| > MAX_RECORD then State("", true, Window(open), done + rules.notice)
    else State(open, false, "", done)
  }

  lemma RulesAt(rules: Rules, t: string)
    requires rules.Valid()
    ensures rules.incomplete(Window(t)) == rules.incomplete(t)
  {
  }

  /** What the machine consults about a part equals what the whole open record says. */
  lemma Verdict(rules: Rules, open: string, part: string)
    requires rules.Valid() && part != ""
    ensures AppendWindow(Window(open), part) == Window(open + part)
    ensures AppendWindow("", open + part) == Window(open + part)
    ensures rules.incomplete(Window(open + part)) == rules.incomplete(open + part)
    ensures EndsInNewline(part) == EndsInNewline(open + part)
  {
    var t := open + part;
    WindowIsIncremental(open, part);
    assert "" + t == t;
    RulesAt(rules, t);
    assert t[|t| - 1] == part[|part| - 1];
  }

  lemma OpenStays(rules: Rules, done: string, open: string, part: string)
    requires rules.Valid() && !CompleteRecord(rules, open + part) && part != ""
    ensures Accept(rules, StateOf(rules, done, open), part) == StateOf(rules, done, open + part)
  {
    Verdict(rules, open, part);
  }

  lemma RecordCloses(rules: Rules, done: string, open: string, part: string)
    requires rules.Valid() && CompleteRecord(rules, open + part) && part != ""
    ensures Accept(rules, StateOf(rules, done, open), part) == StateOf(rules, done + Release(rules, open + part), "")
  {
    Verdict(rules, open, part);
  }

  /** Text consumed with the record `open` unfinished: what is released, and what is open afterwards. */
  function Consume(rules: Rules, open: string, text: string): (r: (string, string))
    decreases |text|
  {
    if text == "" then ("", open)
    else if CompleteRecord(rules, open + text[..1]) then
      var rest := Consume(rules, "", text[1..]);
      (Release(rules, open + text[..1]) + rest.0, rest.1)
    else Consume(rules, open + text[..1], text[1..])
  }

  lemma {:induction false} ConsumeConcat(rules: Rules, open: string, a: string, b: string)
    ensures var first := Consume(rules, open, a);
            var second := Consume(rules, first.1, b);
            Consume(rules, open, a + b) == (first.0 + second.0, second.1)
    decreases |a|
  {
    if a == "" {
      var second := Consume(rules, open, b);
      assert a + b == b && "" + second.0 == second.0;
    } else {
      assert (a + b)[..1] == a[..1] && (a + b)[1..] == a[1..] + b;
      if CompleteRecord(rules, open + a[..1]) {
        ConsumeConcat(rules, "", a[1..], b);
        var released, first := Release(rules, open + a[..1]), Consume(rules, "", a[1..]);
        var second := Consume(rules, first.1, b);
        assert released + (first.0 + second.0) == released + first.0 + second.0;
      } else {
        ConsumeConcat(rules, open + a[..1], a[1..], b);
      }
    }
  }

  /** Nothing is released while no prefix completes the record. */
  lemma {:induction false} ConsumeOpen(rules: Rules, open: string, text: string)
    requires forall k :: 0 < k <= |text| ==> !CompleteRecord(rules, open + text[..k])
    ensures Consume(rules, open, text) == ("", open + text)
    decreases |text|
  {
    if text == "" {
      assert open + text == open;
    } else {
      assert text[..1] == text[..1][..1];
      forall k | 0 < k <= |text[1..]| ensures !CompleteRecord(rules, open + text[..1] + text[1..][..k]) {
        assert open + text[..1] + text[1..][..k] == open + text[..k + 1];
      }
      ConsumeOpen(rules, open + text[..1], text[1..]);
      assert open + text[..1] + text[1..] == open + text;
    }
  }

  /** A part has a newline at most at its end. */
  predicate IsPart(part: string) {
    part != "" && forall i :: 0 <= i < |part| - 1 ==> part[i] != '\n'
  }

  /** A part can only complete a record at its end. */
  lemma ConsumePart(rules: Rules, open: string, part: string)
    requires IsPart(part)
    ensures Consume(rules, open, part) ==
            if CompleteRecord(rules, open + part) then (Release(rules, open + part), "") else ("", open + part)
  {
    var n := |part| - 1;
    var body, last := part[..n], part[n..];
    forall k | 0 < k <= n ensures !CompleteRecord(rules, open + body[..k]) {
      assert (open + body[..k])[|open| + k - 1] == part[k - 1];
    }
    ConsumeOpen(rules, open, body);
    ConsumeConcat(rules, open, body, last);
    ConsumeOne(rules, open + body, last);
    assert part == body + last && (open + body) + last == open + part;
    var out := Consume(rules, open + body, last).0;
    assert "" + out == out;
  }

  lemma ConsumeOne(rules: Rules, open: string, c: string)
    requires |c| == 1
    ensures Consume(rules, open, c) ==
            if CompleteRecord(rules, open + c) then (Release(rules, open + c), "") else ("", open + c)
  {
    assert c[..1] == c && c[1..] == "";
    var r := Release(rules, open + c);
    assert r + "" == r;
  }

  /** The machine taking a part at once agrees with the text taken one character at a time. */
  lemma PartIsConsumed(rules: Rules, done: string, open: string, part: string)
    requires rules.Valid() && IsPart(part)
    ensures var (out, open') := Consume(rules, open, part);
            Accept(rules, StateOf(rules, done, open), part) == StateOf(rules, done + out, open')
  {
    ConsumePart(rules, open, part);
    if CompleteRecord(rules, open + part) {
      RecordCloses(rules, done, open, part);
    } else {
      OpenStays(rules, done, open, part);
      assert done + "" == done;
    }
  }

  /** Consuming a text that starts with a whole record. */
  lemma ConsumeRecord(rules: Rules, record: string, rest: string)
    requires IsRecord(rules, record) && CompleteRecord(rules, record)
    ensures var (out, open) := Consume(rules, "", rest);
            Consume(rules, "", record + rest) == (Release(rules, record) + out, open)
  {
    ConsumeWhole(rules, record);
    ConsumeConcat(rules, "", record, rest);
  }

  lemma ConsumeWhole(rules: Rules, record: string)
    requires IsRecord(rules, record) && CompleteRecord(rules, record)
    ensures Consume(rules, "", record) == (Release(rules, record), "")
  {
    var n := |record| - 1;
    var body, last := record[..n], record[n..];
    forall k | 0 < k <= |body| ensures !CompleteRecord(rules, body[..k]) {
      assert body[..k] == record[..k];
    }
    ConsumeUnfinished(rules, body);
    assert body + last == record;
    ConsumeConcat(rules, "", body, last);
    ConsumeOne(rules, body, last);
    EmptyEnds(Release(rules, record));
  }

  lemma ConsumeUnfinished(rules: Rules, text: string)
    requires forall k :: 0 < k <= |text| ==> !CompleteRecord(rules, text[..k])
    ensures Consume(rules, "", text) == ("", text)
  {
    forall k | 0 < k <= |text| ensures !CompleteRecord(rules, "" + text[..k]) {
      assert "" + text[..k] == text[..k];
    }
    ConsumeOpen(rules, "", text);
    assert "" + text == text;
  }

  lemma ReleaseFirst(rules: Rules, record: string, rest: seq<string>)
    ensures ReleaseAll(rules, [record] + rest) == Release(rules, record) + ReleaseAll(rules, rest)
  {
    assert ([record] + rest)[1..] == rest;
  }

  lemma OnlyRecord(rules: Rules, text: string)
    requires text != "" && RecordEnd(rules, text, 0) == 0
    ensures ReleaseAll(rules, Records(rules, text)) == Release(rules, text)
    ensures Consume(rules, "", text) == ("", text)
  {
    RecordEndIsFirst(rules, text, 0);
    ConsumeUnfinished(rules, text);
    ReleaseFirst(rules, text, []);
    assert [text] + [] == [text];
    var r := Release(rules, text);
    assert r + "" == r;
  }

  /** Closing the stream after consuming everything releases exactly the records of the text. */
  lemma {:induction false} ConsumedRecords(rules: Rules, text: string)
    ensures var (out, open) := Consume(rules, "", text);
            ReleaseAll(rules, Records(rules, text)) == out + (if open == "" then "" else Release(rules, open))
    decreases |text|
  {
    if text == "" {
    } else if RecordEnd(rules, text, 0) == 0 {
      OnlyRecord(rules, text);
      var r := Release(rules, text);
      assert "" + r == r;
    } else {
      var record, rest := FirstRecord(rules, text);
      ReleaseFirst(rules, record, Records(rules, rest));
      ConsumeRecord(rules, record, rest);
      ConsumedRecords(rules, rest);
      var (out, open) := Consume(rules, "", rest);
      Associative(Release(rules, record), out, if open == "" then "" else Release(rules, open));
    }
  }

  /** The redactor with its output, closed after the given chunks. */
  function Fold(rules: Rules, s: State, parts: seq<string>): State
    decreases |parts|
  {
    if parts == [] then s else Fold(rules, Accept(rules, s, parts[0]), parts[1..])
  }

  /** The maximal pieces of a chunk with a newline at most at their end. */
  function Parts(chunk: string): (r: seq<string>)
    ensures Join(r) == chunk && forall p :: p in r ==> IsPart(p)
    decreases |chunk|
  {
    if chunk == "" then []
    else
      var n := PartEnd(chunk, 0);
      assert chunk == chunk[..n] + chunk[n..];
      [chunk[..n]] + Parts(chunk[n..])
  }

  function PartEnd(chunk: string, from: nat): (n: nat)
    requires from < |chunk|
    ensures from < n <= |chunk|
    ensures forall i :: from <= i < n - 1 ==> chunk[i] != '\n'
    ensures n < |chunk| ==> chunk[n - 1] == '\n'
    decreases |chunk| - from
  {
    if chunk[from] == '\n' || from + 1 == |chunk| then from + 1 else PartEnd(chunk, from + 1)
  }

  class AuthStderrRedactor {
    const rules: Rules
    var pending: string
    var dropping: bool
    var window: string
    var emitted: string
    ghost var seen: string  // everything written so far

    ghost predicate Valid()
      reads this
    {
      && rules.Valid()
      && var (out, open) := Consume(rules, "", seen);
         State(pending, dropping, window, emitted) == StateOf(rules, out, open)
    }

    constructor (rules: Rules)
      requires rules.Valid()
      ensures Valid() && seen == "" && emitted == "" && this.rules == rules
    {
      this.rules := rules;
      pending, dropping, window, emitted, seen := "", false, "", "", "";
    }

    method AcceptPart(part: string)
      requires Valid() && IsPart(part)
      modifies this
      ensures Valid() && seen == old(seen) + part
    {
      PartIsConsumed(rules, Consume(rules, "", seen).0, Consume(rules, "", seen).1, part);
      ConsumeConcat(rules, "", seen, part);
      ghost var next := Accept(rules, State(pending, dropping, window, emitted), part);
      seen := seen + part;
      var atNewline := part[|part| - 1] == '\n';
      if dropping {
        window := AppendWindow(window, part);
        if atNewline && !rules.incomplete(window) {
          dropping := false;
          window := "";
        }
      } else {
        pending := pending + part;
        if |pending| > MAX_RECORD {
          emitted := emitted + rules.notice;
          var boundary := AppendWindow("", pending);
          pending := "";
          if atNewline && !rules.incomplete(boundary) {
            window := "";
            dropping := false;
          } else {
            window := boundary;
            dropping := true;
          }
        } else if atNewline && !rules.incomplete(pending) {
          emitted := emitted + rules.redact(pending);
          pending := "";
        }
      }
      assert State(pending, dropping, window, emitted) == next;
    }

    /** Takes one chunk; the state afterwards depends on the text seen, not on how it was cut. */
    method Write(chunk: string)
      requires Valid()
      modifies this
      ensures Valid() && seen == old(seen) + chunk
      ensures |pending| <= 65536 && |window| <= 256
    {
      var i := 0;
      while i < |chunk|
        invariant 0 <= i <= |chunk|
        invariant Valid() && seen == old(seen) + chunk[..i]
      {
        var n := PartEnd(chunk, i);
        assert chunk[..i] + chunk[i..n] == chunk[..n];
        AcceptPart(chunk[i..n]);
        i := n;
      }
    }

    /** Closes the stream: all that was ever emitted is the records of all that was ever written. */
    method End()
      requires Valid()
      modifies this
      ensures emitted == ReleaseAll(rules, Records(rules, seen)) && seen == old(seen) && pending == ""
    {
      ConsumedRecords(rules, seen);
      if pending != "" {
        emitted := emitted + rules.redact(pending);
      }
      pending := "";
    }
  }

  /** The rules the program uses: its own pattern, and any replacement of secrets. */
  lemma PatternRulesAreValid(redact: string -> string)
    ensures Rules(Incomplete, redact, SUPPRESSED).Valid()
  {
    forall t ensures Incomplete(Window(t)) == Incomplete(t) {
      WindowIsAuthoritative(t);
    }
  }

  lemma FoldFirst(rules: Rules, s: State, parts: seq<string>)
    requires parts != []
    ensures Fold(rules, s, parts) == Fold(rules, Accept(rules, s, parts[0]), parts[1..])
    ensures Join(parts) == parts[0] + Join(parts[1..])
  {
  }

  lemma {:induction false} FoldConsumes(rules: Rules, done: string, open: string, parts: seq<string>)
    requires rules.Valid() && forall i :: 0 <= i < |parts| ==> IsPart(parts[i])
    ensures Fold(rules, StateOf(rules, done, open), parts) == StateAfter(rules, done, open, Join(parts))
    decreases |parts|
  {
    if parts == [] {
      EmptyEnds(done);
    } else {
      PartIsConsumed(rules, done, open, parts[0]);
      var (out, open') := Consume(rules, open, parts[0]);
      FoldFirst(rules, StateOf(rules, done, open), parts);
      FoldConsumes(rules, done + out, open', parts[1..]);
      StateAfterConcat(rules, done, open, parts[0], Join(parts[1..]));
    }
  }

  /** The state that consuming a text leads to. */
  function StateAfter(rules: Rules, done: string, open: string, text: string): State {
    var (out, open') := Consume(rules, open, text);
    StateOf(rules, done + out, open')
  }

  lemma StateAfterConcat(rules: Rules, done: string, open: string, a: string, b: string)
    ensures var (out, open') := Consume(rules, open, a);
            StateAfter(rules, done, open, a + b) == StateAfter(rules, done + out, open', b)
  {
    ConsumeConcat(rules, open, a, b);
    var (out, open') := Consume(rules, open, a);
    Associative(done, out, Consume(rules, open', b).0);
  }

  function WriteAll(rules: Rules, s: State, chunks: seq<string>): State
    decreases |chunks|
  {
    if chunks == [] then s else WriteAll(rules, Fold(rules, s, Parts(chunks[0])), chunks[1..])
  }

  lemma {:induction false} WriteAllConsumes(rules: Rules, done: string, open: string, chunks: seq<string>)
    requires rules.Valid()
    ensures WriteAll(rules, StateOf(rules, done, open), chunks) == StateAfter(rules, done, open, Join(chunks))
    decreases |chunks|
  {
    if chunks == [] {
      EmptyEnds(done);
    } else {
      FoldConsumes(rules, done, open, Parts(chunks[0]));
      var (out, open') := Consume(rules, open, chunks[0]);
      WriteAllConsumes(rules, done + out, open', chunks[1..]);
      StateAfterConcat(rules, done, open, chunks[0], Join(chunks[1..]));
    }
  }

  /** Chunk invariance: two ways of cutting the same text leave the same state, and closing it emits the
      released records of the text. */
  lemma ChunkInvariance(rules: Rules, chunks: seq<string>, chunks': seq<string>)
    requires rules.Valid() && Join(chunks) == Join(chunks')
    ensures var s := WriteAll(rules, State("", false, "", ""), chunks);
            && s == WriteAll(rules, State("", false, "", ""), chunks')
            && |s.pending| <= 65536 && |s.window| <= 256
            && s.emitted + (if s.pending == "" then "" else rules.redact(s.pending))
               == ReleaseAll(rules, Records(rules, Join(chunks)))
  {
    WriteAllConsumes(rules, "", "", chunks);
    WriteAllConsumes(rules, "", "", chunks');
    ConsumedRecords(rules, Join(chunks));
    var (out, open) := Consume(rules, "", Join(chunks));
    assert "" + out == out && out + "" == out;
  }
}
