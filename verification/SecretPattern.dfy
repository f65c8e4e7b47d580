/** The window of suppressed text the stderr redactor keeps, and the pattern it looks for at its end.
    Lengths count Unicode scalar values. */
module SecretPattern {
  import opened Text

  const WINDOW := 256

  // ---------- Collapsing ----------

  function LeadingSpaces(t: string): (n: nat)
    ensures n <= |t| && (forall i :: 0 <= i < n ==> IsSpace(t[i])) && (n < |t| ==> !IsSpace(t[n]))
  {
    if t == "" || !IsSpace(t[0]) then 0 else 1 + LeadingSpaces(t[1..])
  }

  /** Every run of two or more spaces becomes one blank. */
  function Collapse(t: string): string
    decreases |t|
  {
    if t == "" then ""
    else
      var n := LeadingSpaces(t);
      if n >= 2 then " " + Collapse(t[n..]) else t[..1] + Collapse(t[1..])
  }

  function Tail(t: string): string {
    if |t| > WINDOW then t[|t| - WINDOW..] else t
  }

  /** The program's incremental window over suppressed text. */
  function AppendWindow(window: string, text: string): string {
    Tail(Collapse(window + text))
  }

  /** What the window stands for: the last characters of the collapsed text. */
  function Window(text: string): string {
    Tail(Collapse(text))
  }

  /** The window keeps the last 256 characters of the collapsed text, or all of them if there are no more. */
  lemma WindowIsTail(t: string, c: string)
    requires c == Collapse(t)
    ensures IsTail(Window(t), c)
  {
    TailIsTail(c);
  }

  predicate IsTail(w: string, c: string) {
    |w| == (if |c| < 256 then |c| else 256) && w == c[|c| - |w|..]
  }

  lemma TailIsTail(c: string)
    ensures IsTail(Tail(c), c)
  {
  }

  /** Collapsed text extended by one character. */
  function Push(c: string, x: char): string {
    if IsSpace(x) && EndsInSpace(c) then c[..|c| - 1] + " " else c + [x]
  }

  ghost predicate NoDoubleSpace(c: string) {
    forall i :: 0 <= i < |c| - 1 ==> !(IsSpace(c[i]) && IsSpace(c[i + 1]))
  }

  lemma {:induction false} LeadingSpacesPush(t: string, x: char)
    ensures LeadingSpaces(t + [x]) ==
            if LeadingSpaces(t) == |t| && IsSpace(x) then |t| + 1 else LeadingSpaces(t)
  {
    if t == "" {
      assert t + [x] == [x] && LeadingSpaces([x][1..]) == 0;
    } else {
      assert (t + [x])[0] == t[0] && (t + [x])[1..] == t[1..] + [x];
      LeadingSpacesPush(t[1..], x);
    }
  }

  lemma CollapseNonEmpty(t: string)
    requires t != ""
    ensures Collapse(t) != ""
  {
  }

  /** A run of spaces collapses to itself if it is short, to one blank otherwise. */
  lemma CollapseAllSpaces(t: string)
    requires LeadingSpaces(t) == |t|
    ensures Collapse(t) == if |t| <= 1 then t else " "
  {
    if |t| == 1 {
      assert t[..1] == t && t[1..] == "";
    } else if |t| > 1 {
      assert t[|t|..] == "";
    }
  }

  /** The first step of a collapse does not look past the run it starts with. */
  lemma CollapseHead(t: string) returns (k: nat, head: string)
    requires t != ""
    ensures 0 < k <= |t| && head != "" && Collapse(t) == head + Collapse(t[k..])
    ensures k == (if LeadingSpaces(t) >= 2 then LeadingSpaces(t) else 1)
    ensures head == (if LeadingSpaces(t) >= 2 then " " else t[..1])
  {
    k := if LeadingSpaces(t) >= 2 then LeadingSpaces(t) else 1;
    head := if LeadingSpaces(t) >= 2 then " " else t[..1];
  }

  lemma CollapsePushSpaces(t: string, x: char)
    requires LeadingSpaces(t) == |t| && (IsSpace(x) || t == "")
    ensures Collapse(t + [x]) == Push(Collapse(t), x)
  {
    if IsSpace(x) {
      CollapseAllSpaces(t);
      LeadingSpacesPush(t, x);
      CollapseAllSpaces(t + [x]);
      PushSpaces(t, x);
    } else {
      assert t + [x] == [x] && [x][..1] == [x] && [x][1..] == "";
    }
  }

  lemma PushSpaces(t: string, x: char)
    requires IsSpace(x) && LeadingSpaces(t) == |t|
    ensures Push(if |t| <= 1 then t else " ", x) == if |t| == 0 then [x] else " "
  {
    assert IsSpace(' ');
  }

  /** Where the run at the start ends within t, the first step is the same with another character behind t. */
  lemma CollapseHeadPush(t: string, x: char) returns (k: nat, head: string)
    requires t != "" && !(LeadingSpaces(t) == |t| && IsSpace(x))
    ensures 0 < k <= |t| && Collapse(t) == head + Collapse(t[k..]) && Collapse(t + [x]) == head + Collapse(t[k..] + [x])
    ensures t[k..] == "" ==> !(IsSpace(x) && EndsInSpace(head))
  {
    LeadingSpacesPush(t, x);
    k, head := CollapseHead(t);
    var k', head' := CollapseHead(t + [x]);
    assert (t + [x])[..1] == t[..1] && (t + [x])[k..] == t[k..] + [x];
  }

  /** Collapsing can be done one character at a time. */
  lemma {:induction false} CollapsePush(t: string, x: char)
    ensures Collapse(t + [x]) == Push(Collapse(t), x)
    decreases |t|
  {
    if LeadingSpaces(t) == |t| && (IsSpace(x) || t == "") {
      CollapsePushSpaces(t, x);
    } else {
      var k, head := CollapseHeadPush(t, x);
      CollapsePush(t[k..], x);
      if t[k..] != "" {
        CollapseNonEmpty(t[k..]);
      }
      PushAfter(head, Collapse(t[k..]), x);
    }
  }

  lemma PushAfter(a: string, c: string, x: char)
    requires c != "" || !(IsSpace(x) && EndsInSpace(a))
    ensures Push(a + c, x) == a + Push(c, x)
  {
    if c == "" {
      assert a + c == a && Push(c, x) == [x];
    } else {
      assert (a + c)[|a + c| - 1] == c[|c| - 1];
      assert (a + c)[..|a + c| - 1] == a + c[..|c| - 1];
    }
  }

  lemma {:induction false} CollapsedHasNoDoubleSpace(t: string)
    ensures NoDoubleSpace(Collapse(t))
    decreases |t|
  {
    if t != "" {
      var t', x := t[..|t| - 1], t[|t| - 1];
      assert t == t' + [x];
      CollapsedHasNoDoubleSpace(t');
      CollapsePush(t', x);
    }
  }

  lemma {:induction false} CollapseIsIdentity(c: string)
    requires NoDoubleSpace(c)
    ensures Collapse(c) == c
    decreases |c|
  {
    if c != "" {
      var c', x := c[..|c| - 1], c[|c| - 1];
      assert c == c' + [x];
      CollapseIsIdentity(c');
      CollapsePush(c', x);
    }
  }

  lemma TailPush(c: string, x: char)
    ensures Tail(Push(Tail(c), x)) == Tail(Push(c, x))
  {
    if |c| > WINDOW {
      var k := |c| - WINDOW;
      var a, b := c[..k], c[k..];
      assert c == a + b && Tail(c) == b && |b| == WINDOW;
      PushAfter(a, b, x);
      TailAfter(a, Push(b, x));
    }
  }

  lemma TailAfter(a: string, b: string)
    requires |b| >= WINDOW
    ensures Tail(a + b) == Tail(b)
  {
    assert (a + b)[|a + b| - WINDOW..] == b[|b| - WINDOW..];
  }

  /** The incremental window is the window of all the text suppressed so far, however it was cut. */
  lemma {:induction false} WindowIsIncremental(t: string, u: string)
    ensures AppendWindow(Window(t), u) == Window(t + u)
    decreases |u|
  {
    if u == "" {
      CollapsedHasNoDoubleSpace(t);
      CollapseIsIdentity(Window(t));
      assert Window(t) + u == Window(t) && t + u == t;
    } else {
      var u', x := u[..|u| - 1], u[|u| - 1];
      WindowIsIncremental(t, u');
      assert t + u == (t + u') + [x] && Window(t) + u == (Window(t) + u') + [x];
      CollapsePush(t + u', x);
      CollapsePush(Window(t) + u', x);
      TailPush(Collapse(t + u'), x);
      TailPush(Collapse(Window(t) + u'), x);
    }
  }

  // ---------- The pattern of text that a secret may follow ----------

  predicate IsWord(c: char) {
    'a' <= c <= 'z' || 'A' <= c <= 'Z' || '0' <= c <= '9' || c == '_'
  }

  predicate EndsWithKey(t: string, key: string) {
    |key| <= |t| && forall i :: 0 <= i < |key| ==> Lower(t[|t| - |key| + i]) == key[i]
  }

  const PLAIN_KEYS := ["access_token", "refresh_token", "id_token"]
  const SESSION_KEYS := ["sessiontoken", "session_token", "session-token"]
  const AUTH_KEYS := ["authtoken", "auth_token", "auth-token"]
  const API_KEYS := ["apitoken", "api_token", "api-token"]

  function TokenKeys(): seq<string> {
    (PLAIN_KEYS + SESSION_KEYS) + (AUTH_KEYS + API_KEYS)
  }

  predicate EndsWithAny(t: string, keys: seq<string>) {
    exists k :: 0 <= k < |keys| && EndsWithKey(t, keys[k])
  }

  predicate EndsIn(t: string, a: char, b: char) {
    t != "" && (t[|t| - 1] == a || t[|t| - 1] == b)
  }

  /** A token key, with or without its closing quote. */
  predicate EndsWithField(t: string, keys: seq<string>) {
    EndsWithAny(t, keys) || (EndsIn(t, '\'', '"') && EndsWithAny(t[..|t| - 1], keys))
  }

  predicate EndsWithWord(t: string, word: string) {
    EndsWithKey(t, word) && (|t| == |word| || !IsWord(t[|t| - |word| - 1]))
  }

  /** What is looked at before a separator. */
  function BeforeLast(u: string): string
    requires u != ""
  {
    TrimEnd(u[..|u| - 1])
  }

  /** Whether the text may be followed by a secret: a token key, an optional separator, or the given word, then
      spaces to the end. */
  predicate MayPrecede(t: string, keys: seq<string>, word: string) {
    Verdict(TrimEnd(t), keys, word)
  }

  predicate Verdict(u: string, keys: seq<string>, word: string) {
    EndsWithWord(u, word) || EndsWithField(u, keys) || EndsWithAssignment(u, keys)
  }

  /** A field and a separator. */
  predicate EndsWithAssignment(u: string, keys: seq<string>) {
    EndsIn(u, ':', '=') && EndsWithField(BeforeLast(u), keys)
  }

  predicate Incomplete(t: string) {
    MayPrecede(t, TokenKeys(), "bearer")
  }

  ghost predicate Solid(key: string) {
    forall i :: 0 <= i < |key| ==> !IsSpace(key[i])
  }

  ghost predicate Short(keys: seq<string>) {
    forall k :: 0 <= k < |keys| ==> 0 < |keys[k]| <= 13 && Solid(keys[k])
  }

  lemma PlainKeysAreShort()
    ensures Short(PLAIN_KEYS)
  {
  }

  lemma SessionKeysAreShort()
    ensures Short(SESSION_KEYS)
  {
  }

  lemma AuthKeysAreShort()
    ensures Short(AUTH_KEYS)
  {
  }

  lemma ApiKeysAreShort()
    ensures Short(API_KEYS)
  {
  }

  lemma ShortConcat(a: seq<string>, b: seq<string>)
    requires Short(a) && Short(b)
    ensures Short(a + b)
  {
  }

  lemma TokenKeysAreShort()
    ensures Short(TokenKeys())
  {
    PlainKeysAreShort();
    SessionKeysAreShort();
    AuthKeysAreShort();
    ApiKeysAreShort();
    ShortConcat(PLAIN_KEYS, SESSION_KEYS);
    ShortConcat(AUTH_KEYS, API_KEYS);
    ShortConcat(PLAIN_KEYS + SESSION_KEYS, AUTH_KEYS + API_KEYS);
  }

  // Collapsing does not change the verdict ...

  lemma PushLast(c: string, x: char)
    ensures var r := Push(c, x); r != "" && EndsInSpace(r) == IsSpace(x) && (!IsSpace(x) ==> r == c + [x])
  {
    assert IsSpace(' ');
  }

  lemma CollapseLast(t: string)
    requires t != ""
    ensures var c := Collapse(t);
            && c != "" && EndsInSpace(c) == EndsInSpace(t)
            && (!EndsInSpace(t) ==> c == Collapse(t[..|t| - 1]) + [t[|t| - 1]])
  {
    var t', x := t[..|t| - 1], t[|t| - 1];
    assert t == t' + [x];
    CollapsePush(t', x);
    LastPushed(t, t', x, Collapse(t), Collapse(t'));
  }

  lemma LastPushed(t: string, t': string, x: char, c: string, d: string)
    requires t == t' + [x] && c == Push(d, x)
    ensures c != "" && EndsInSpace(c) == EndsInSpace(t) && (!EndsInSpace(t) ==> c == d + [x])
  {
    PushLast(d, x);
    assert t[|t| - 1] == x;
  }

  lemma {:induction false} TrimEndOfCollapse(t: string)
    ensures TrimEnd(Collapse(t)) == Collapse(TrimEnd(t))
    decreases |t|
  {
    if EndsInSpace(t) {
      var t', x := t[..|t| - 1], t[|t| - 1];
      assert t == t' + [x];
      TrimEndOfCollapse(t');
      CollapsePush(t', x);
      var c := Collapse(t');
      assert IsSpace(' ');
      if EndsInSpace(c) {
        assert (c[..|c| - 1] + " ")[..|c| - 1] == c[..|c| - 1];
      } else {
        assert (c + [x])[..|c|] == c;
      }
    } else if t != "" {
      CollapseLast(t);
    }
  }

  lemma {:induction false} KeyOfCollapse(t: string, key: string)
    requires Solid(key)
    ensures EndsWithKey(Collapse(t), key) == EndsWithKey(t, key)
    decreases |key|
  {
    if key != "" && t != "" {
      CollapseLast(t);
      if EndsInSpace(t) {
        SpaceEndsNoKey(t, key);
        SpaceEndsNoKey(Collapse(t), key);
      } else {
        var t', x := t[..|t| - 1], t[|t| - 1];
        var key', y := key[..|key| - 1], key[|key| - 1];
        assert t == t' + [x] && key == key' + [y];
        KeyOfCollapse(t', key');
        KeyExtends(t', x, key', y);
        KeyExtends(Collapse(t'), x, key', y);
      }
    }
  }

  lemma {:induction false} KeySplitsCollapse(t: string, key: string)
    requires Solid(key) && EndsWithKey(t, key)
    ensures Collapse(t) == Collapse(t[..|t| - |key|]) + t[|t| - |key|..]
    decreases |key|
  {
    var n := |t| - |key|;
    if key == "" {
      assert t[..n] == t && t[n..] == "";
    } else {
      KeyEndsSolid(t, key);
      CollapseLast(t);
      var t', x := t[..|t| - 1], t[|t| - 1];
      KeySplitsCollapse(t', key[..|key| - 1]);
      SplitSnoc(t', x, n, Collapse(t[..n]), t);
    }
  }

  lemma SplitSnoc(t: string, x: char, n: nat, a: string, tx: string)
    requires n <= |t| && tx == t + [x]
    ensures tx[..n] == t[..n] && a + t[n..] + [x] == a + tx[n..]
  {
  }

  lemma KeyEndsSolid(t: string, key: string)
    requires Solid(key) && EndsWithKey(t, key) && key != ""
    ensures t != "" && !EndsInSpace(t) && EndsWithKey(t[..|t| - 1], key[..|key| - 1])
  {
    KeyLast(t, key);
    SpaceIsNotUpper(t[|t| - 1]);
    var t', x := t[..|t| - 1], t[|t| - 1];
    var key', y := key[..|key| - 1], key[|key| - 1];
    assert t == t' + [x] && key == key' + [y];
    KeyExtends(t', x, key', y);
  }

  lemma KeyExtends(t: string, x: char, key: string, y: char)
    ensures EndsWithKey(t + [x], key + [y]) <==> EndsWithKey(t, key) && Lower(x) == y
  {
    var tx, ky := t + [x], key + [y];
    if EndsWithKey(tx, ky) {
      assert Lower(tx[|tx| - |ky| + |key|]) == ky[|key|];
      forall i | 0 <= i < |key| ensures Lower(t[|t| - |key| + i]) == key[i] {
        assert Lower(tx[|tx| - |ky| + i]) == ky[i];
      }
    }
  }

  lemma KeyLast(t: string, key: string)
    requires key != ""
    ensures EndsWithKey(t, key) ==> Lower(t[|t| - 1]) == key[|key| - 1]
  {
    if EndsWithKey(t, key) {
      assert Lower(t[|t| - |key| + (|key| - 1)]) == key[|key| - 1];
    }
  }

  lemma SpaceIsNotUpper(c: char)
    ensures IsSpace(Lower(c)) == IsSpace(c)
  {
  }

  lemma SpaceEndsNoKey(t: string, key: string)
    requires EndsInSpace(t) && key != "" && Solid(key)
    ensures !EndsWithKey(t, key)
  {
    KeyLast(t, key);
  }

  lemma FieldOfCollapse(t: string, keys: seq<string>)
    requires Short(keys)
    ensures EndsWithField(Collapse(t), keys) == EndsWithField(t, keys)
  {
    AnyOfCollapse(t, keys);
    if t != "" {
      CollapseLast(t);
      var c := Collapse(t);
      if !EndsInSpace(t) {
        AnyOfCollapse(t[..|t| - 1], keys);
        assert c[..|c| - 1] == Collapse(t[..|t| - 1]);
      }
    }
  }

  lemma AnyOfCollapse(t: string, keys: seq<string>)
    requires Short(keys)
    ensures EndsWithAny(Collapse(t), keys) == EndsWithAny(t, keys)
  {
    forall k | 0 <= k < |keys| ensures EndsWithKey(Collapse(t), keys[k]) == EndsWithKey(t, keys[k]) {
      KeyOfCollapse(t, keys[k]);
    }
  }

  lemma SameBeforeWord(t: string, a: string, rest: string, d: string, c: string, word: string)
    requires a != "" && d != "" && t == a + rest && c == d + rest && |rest| == |word|
    requires IsWord(d[|d| - 1]) == IsWord(a[|a| - 1]) && EndsWithKey(t, word)
    ensures EndsWithWord(c, word) == EndsWithWord(t, word)
  {
    KeyIsSuffix(a, rest, word);
    KeyIsSuffix(d, rest, word);
    assert t[|t| - |word| - 1] == a[|a| - 1] && c[|c| - |word| - 1] == d[|d| - 1];
  }

  lemma CollapseKeepsLast(a: string)
    requires a != ""
    ensures var d := Collapse(a); d != "" && IsWord(d[|d| - 1]) == IsWord(a[|a| - 1])
  {
    CollapseLast(a);
    WordBefore(a, Collapse(a));
  }

  lemma WordParts(t: string, word: string) returns (a: string, rest: string, d: string, c: string)
    requires Solid(word) && EndsWithKey(t, word) && |t| > |word|
    ensures a != "" && |rest| == |word| && t == a + rest && c == Collapse(t) && d == Collapse(a) && c == d + rest
  {
    var n := |t| - |word|;
    a, rest := t[..n], t[n..];
    KeySplitsCollapse(t, word);
    d, c := Collapse(a), Collapse(t);
  }

  lemma WordInside(t: string, word: string)
    requires Solid(word) && EndsWithKey(t, word) && |t| > |word|
    ensures EndsWithWord(Collapse(t), word) == EndsWithWord(t, word)
  {
    var a, rest, d, c := WordParts(t, word);
    CollapseKeepsLast(a);
    SameBeforeWord(t, a, rest, d, c, word);
  }

  lemma WordAlone(t: string, word: string)
    requires Solid(word) && EndsWithKey(t, word) && |t| == |word|
    ensures EndsWithWord(Collapse(t), word) && EndsWithWord(t, word)
  {
    KeySplitsCollapse(t, word);
    KeyOfCollapse(t, word);
    var none, all := t[..0], t[0..];
    assert none == "" && all == t && Collapse(none) == "" && Collapse(none) + all == all;
  }

  lemma WordOfCollapse(t: string, word: string)
    requires Solid(word)
    ensures EndsWithWord(Collapse(t), word) == EndsWithWord(t, word)
  {
    if !EndsWithKey(t, word) {
      KeyOfCollapse(t, word);
    } else if |t| > |word| {
      WordInside(t, word);
    } else {
      WordAlone(t, word);
    }
  }

  /** Spaces are not word characters, so collapsing does not change whether a text ends in one. */
  lemma WordBefore(a: string, c: string)
    requires a != "" && c != "" && EndsInSpace(c) == EndsInSpace(a) && (!EndsInSpace(a) ==> c[|c| - 1] == a[|a| - 1])
    ensures IsWord(c[|c| - 1]) == IsWord(a[|a| - 1])
  {
  }

  lemma BeforeLastOfCollapse(u: string)
    requires u != "" && !EndsInSpace(u)
    ensures var c := Collapse(u); c != "" && c[|c| - 1] == u[|u| - 1] && BeforeLast(c) == Collapse(BeforeLast(u))
  {
    CollapseLast(u);
    var v, c := u[..|u| - 1], Collapse(u);
    assert c[..|c| - 1] == Collapse(v);
    TrimEndOfCollapse(v);
  }

  lemma AssignmentOfCollapse(u: string, keys: seq<string>)
    requires Short(keys) && !EndsInSpace(u)
    ensures EndsWithAssignment(Collapse(u), keys) == EndsWithAssignment(u, keys)
  {
    if u != "" {
      BeforeLastOfCollapse(u);
      FieldOfCollapse(BeforeLast(u), keys);
    }
  }

  lemma VerdictOfCollapse(u: string, keys: seq<string>, word: string)
    requires Short(keys) && Solid(word) && !EndsInSpace(u)
    ensures Verdict(Collapse(u), keys, word) == Verdict(u, keys, word)
  {
    WordOfCollapse(u, word);
    FieldOfCollapse(u, keys);
    AssignmentOfCollapse(u, keys);
  }

  lemma MayPrecedeOfCollapse(t: string, keys: seq<string>, word: string)
    requires Short(keys) && Solid(word)
    ensures MayPrecede(Collapse(t), keys, word) == MayPrecede(t, keys, word)
  {
    TrimEndOfCollapse(t);
    VerdictOfCollapse(TrimEnd(t), keys, word);
  }

  // ... and neither does cutting collapsed text down to its last characters.

  lemma KeyOfSuffix(c: string, k: nat, key: string)
    requires k <= |c| && |c| - k >= |key|
    ensures EndsWithKey(c[k..], key) == EndsWithKey(c, key)
  {
  }

  lemma AnyOfSuffix(c: string, k: nat, keys: seq<string>)
    requires Short(keys) && k + 13 <= |c|
    ensures EndsWithAny(c[k..], keys) == EndsWithAny(c, keys)
  {
    forall i | 0 <= i < |keys| ensures EndsWithKey(c[k..], keys[i]) == EndsWithKey(c, keys[i]) {
      KeyOfSuffix(c, k, keys[i]);
    }
  }

  lemma FieldOfSuffix(c: string, k: nat, keys: seq<string>)
    requires Short(keys) && k + 14 <= |c|
    ensures EndsWithField(c[k..], keys) == EndsWithField(c, keys)
  {
    AnyOfSuffix(c, k, keys);
    AnyOfSuffix(c[..|c| - 1], k, keys);
    assert c[k..][..|c[k..]| - 1] == c[..|c| - 1][k..];
  }

  lemma TrimOne(c: string, d: string)
    requires |c| >= 2 && IsSpace(c[|c| - 1]) && !IsSpace(c[|c| - 2]) && d == c[..|c| - 1]
    ensures TrimEnd(c) == d
  {
    assert d[|d| - 1] == c[|c| - 2];
    assert TrimEnd(d) == d;
  }

  lemma TrimEndOfSuffix(c: string, k: nat)
    requires NoDoubleSpace(c) && k + 2 <= |c|
    ensures |c| - 1 <= |TrimEnd(c)| && TrimEnd(c[k..]) == TrimEnd(c)[k..]
  {
    var n := |c|;
    var b, shorter := c[k..], c[..n - 1];
    if EndsInSpace(c) {
      assert !IsSpace(c[n - 2]) && b[n - k - 2] == c[n - 2] && b[n - k - 1] == c[n - 1];
      assert b[..n - k - 1] == shorter[k..];
      TrimOne(c, shorter);
      TrimOne(b, shorter[k..]);
    } else {
      assert b[n - k - 1] == c[n - 1];
    }
  }

  lemma WordOfSuffix(c: string, k: nat, word: string)
    requires k + |word| < |c|
    ensures EndsWithWord(c[k..], word) == EndsWithWord(c, word)
  {
    KeyOfSuffix(c, k, word);
    assert c[k..][|c[k..]| - |word| - 1] == c[|c| - |word| - 1];
  }

  lemma BeforeLastOfSuffix(u: string, k: nat)
    requires NoDoubleSpace(u) && k + 3 <= |u|
    ensures |u| - 2 <= |BeforeLast(u)| && BeforeLast(u[k..]) == BeforeLast(u)[k..]
  {
    var v := u[..|u| - 1];
    assert u[k..][..|u[k..]| - 1] == v[k..];
    TrimEndOfSuffix(v, k);
  }

  lemma AssignmentOfSuffix(u: string, k: nat, keys: seq<string>)
    requires Short(keys) && NoDoubleSpace(u) && k + 17 <= |u|
    ensures EndsWithAssignment(u[k..], keys) == EndsWithAssignment(u, keys)
  {
    BeforeLastOfSuffix(u, k);
    FieldOfSuffix(BeforeLast(u), k, keys);
    assert u[k..][|u| - k - 1] == u[|u| - 1];
  }

  lemma VerdictOfSuffix(u: string, k: nat, keys: seq<string>, word: string)
    requires Short(keys) && |word| <= 13 && NoDoubleSpace(u) && k + 17 <= |u|
    ensures Verdict(u[k..], keys, word) == Verdict(u, keys, word)
  {
    WordOfSuffix(u, k, word);
    FieldOfSuffix(u, k, keys);
    AssignmentOfSuffix(u, k, keys);
  }

  lemma MayPrecedeOfSuffix(c: string, k: nat, keys: seq<string>, word: string)
    requires Short(keys) && |word| <= 13 && NoDoubleSpace(c) && k + 20 <= |c|
    ensures MayPrecede(c[k..], keys, word) == MayPrecede(c, keys, word)
  {
    TrimEndOfSuffix(c, k);
    VerdictOfSuffix(TrimEnd(c), k, keys, word);
  }

  lemma MayPrecedeOfTail(c: string, keys: seq<string>, word: string)
    requires Short(keys) && |word| <= 13 && NoDoubleSpace(c)
    ensures MayPrecede(Tail(c), keys, word) == MayPrecede(c, keys, word)
  {
    var k := TailStart(c);
    if k > 0 {
      MayPrecedeOfSuffix(c, k, keys, word);
    }
  }

  lemma TailStart(c: string) returns (k: nat)
    ensures k <= |c| && Tail(c) == c[k..] && (k > 0 ==> k + 20 <= |c|) && (k == 0 ==> Tail(c) == c)
  {
    k := if |c| > WINDOW then |c| - WINDOW else 0;
  }

  /** The claim the program rests on: the small window is as authoritative as the whole record. */
  lemma WindowDecides(t: string, keys: seq<string>, word: string)
    requires Short(keys) && Solid(word) && |word| <= 13
    ensures MayPrecede(Window(t), keys, word) == MayPrecede(t, keys, word)
  {
    MayPrecedeOfCollapse(t, keys, word);
    CollapsedHasNoDoubleSpace(t);
    MayPrecedeOfTail(Collapse(t), keys, word);
  }

  lemma WindowIsAuthoritative(t: string)
    ensures Incomplete(Window(t)) == Incomplete(t)
  {
    TokenKeysAreShort();
    WindowDecides(t, TokenKeys(), "bearer");
  }

  // ---------- What the pattern accepts ----------

  ghost predicate Blank(t: string) {
    forall i :: 0 <= i < |t| ==> IsSpace(t[i])
  }

  /** Equal up to the case of ASCII letters. */
  ghost predicate SameLetters(t: string, key: string) {
    |t| == |key| && forall i :: 0 <= i < |t| ==> Lower(t[i]) == key[i]
  }

  ghost predicate IsKey(t: string, keys: seq<string>) {
    exists k :: 0 <= k < |keys| && SameLetters(t, keys[k])
  }

  /** A text that ends where the value of a field may follow, cut into its parts. */
  datatype Cut = Cut(before: string, key: string, quote: string, gap: string, separator: string, end: string)

  /** Any text, a token key in any case, an optional quote, spaces, at most one separator, spaces. */
  ghost predicate FieldCut(t: string, c: Cut, keys: seq<string>) {
    && t == c.before + c.key + c.quote + c.gap + c.separator + c.end
    && IsKey(c.key, keys)
    && (c.quote == "" || c.quote == "'" || c.quote == "\"")
    && Blank(c.gap)
    && (c.separator == "" || c.separator == ":" || c.separator == "=")
    && Blank(c.end)
  }

  /** Any text that does not end in a word character, the word in any case, spaces. */
  ghost predicate WordCut(t: string, before: string, said: string, end: string, word: string) {
    && t == before + said + end && SameLetters(said, word) && Blank(end)
    && (before == "" || !IsWord(before[|before| - 1]))
  }

  ghost predicate HasWordCut(t: string, word: string) {
    exists before, said, end :: WordCut(t, before, said, end, word)
  }

  ghost predicate HasFieldCut(t: string, keys: seq<string>) {
    exists c :: FieldCut(t, c, keys)
  }

  lemma KeyIsSuffix(before: string, said: string, key: string)
    requires |said| == |key|
    ensures EndsWithKey(before + said, key) <==> SameLetters(said, key)
  {
    var t := before + said;
    assert forall i :: 0 <= i < |said| ==> t[|t| - |key| + i] == said[i];
  }

  lemma {:induction false} TrimBlank(t: string, end: string)
    requires !EndsInSpace(t) && Blank(end)
    ensures TrimEnd(t + end) == t
    decreases |end|
  {
    if end == "" {
      assert t + end == t;
    } else {
      var n := |end| - 1;
      assert (t + end)[|t + end| - 1] == end[n] && (t + end)[..|t + end| - 1] == t + end[..n];
      TrimBlank(t, end[..n]);
    }
  }

  lemma BlankJoin(a: string, b: string)
    requires Blank(a) && Blank(b)
    ensures Blank(a + b)
  {
  }

  lemma Grouped(a: string, b: string, c: string)
    ensures a + b + c == a + (b + c)
  {
  }

  lemma KeyEnds(before: string, key: string, keys: seq<string>)
    requires Short(keys) && IsKey(key, keys)
    ensures EndsWithAny(before + key, keys) && !EndsInSpace(before + key)
  {
    var k :| 0 <= k < |keys| && SameLetters(key, keys[k]);
    var t := before + key;
    KeyIsSuffix(before, key, keys[k]);
    SpaceIsNotUpper(key[|key| - 1]);
    assert t[|t| - 1] == key[|key| - 1];
  }

  lemma QuoteEnds(t: string, quote: string, keys: seq<string>)
    requires EndsWithAny(t, keys) && (quote == "'" || quote == "\"")
    ensures EndsWithField(t + quote, keys) && !EndsInSpace(t + quote)
  {
    assert (t + quote)[..|t + quote| - 1] == t;
  }

  /** A key, quoted or not, is a field and no space. */
  lemma FieldEnds(before: string, key: string, quote: string, keys: seq<string>)
    requires Short(keys) && IsKey(key, keys) && (quote == "" || quote == "'" || quote == "\"")
    ensures EndsWithField(before + key + quote, keys) && !EndsInSpace(before + key + quote)
  {
    KeyEnds(before, key, keys);
    if quote == "" {
      assert before + key + quote == before + key;
    } else {
      QuoteEnds(before + key, quote, keys);
    }
  }

  lemma FieldCutMatches(t: string, c: Cut, keys: seq<string>, word: string)
    requires Short(keys) && FieldCut(t, c, keys)
    ensures MayPrecede(t, keys, word)
  {
    var field := c.before + c.key + c.quote;
    FieldEnds(c.before, c.key, c.quote, keys);
    if c.separator == "" {
      assert field + c.gap + c.separator == field + c.gap;
      Grouped(field, c.gap, c.end);
      BlankJoin(c.gap, c.end);
      TrimBlank(field, c.gap + c.end);
    } else {
      var u := field + c.gap + c.separator;
      TrimBlank(u, c.end);
      assert u[..|u| - 1] == field + c.gap;
      TrimBlank(field, c.gap);
    }
  }

  lemma WordEnds(before: string, said: string, word: string)
    requires Solid(word) && word != "" && SameLetters(said, word) && (before == "" || !IsWord(before[|before| - 1]))
    ensures EndsWithWord(before + said, word) && !EndsInSpace(before + said)
  {
    var u := before + said;
    KeyIsSuffix(before, said, word);
    SpaceIsNotUpper(said[|said| - 1]);
    assert u[|u| - 1] == said[|said| - 1];
    assert before != "" ==> u[|u| - |word| - 1] == before[|before| - 1];
  }

  lemma WordCutMatches(t: string, before: string, said: string, end: string, keys: seq<string>, word: string)
    requires Solid(word) && word != "" && WordCut(t, before, said, end, word)
    ensures MayPrecede(t, keys, word)
  {
    WordEnds(before, said, word);
    TrimBlank(before + said, end);
    WordMatches(before + said, keys, word);
  }

  lemma WordMatches(u: string, keys: seq<string>, word: string)
    requires EndsWithWord(u, word)
    ensures Verdict(u, keys, word)
  {
  }

  lemma SplitEnd(t: string) returns (end: string)
    ensures t == TrimEnd(t) + end && Blank(end)
  {
    TrimEndDropsSpaces(t);
    end := t[|TrimEnd(t)|..];
  }

  lemma CutKey(t: string, keys: seq<string>) returns (before: string, key: string)
    requires EndsWithAny(t, keys)
    ensures t == before + key && IsKey(key, keys)
  {
    var k :| 0 <= k < |keys| && EndsWithKey(t, keys[k]);
    var n := |t| - |keys[k]|;
    before, key := t[..n], t[n..];
    KeyIsSuffix(before, key, keys[k]);
    assert t == before + key;
  }

  lemma CutField(t: string, keys: seq<string>) returns (before: string, key: string, quote: string)
    requires EndsWithField(t, keys)
    ensures t == before + key + quote && IsKey(key, keys) && (quote == "" || quote == "'" || quote == "\"")
  {
    if EndsWithAny(t, keys) {
      before, key := CutKey(t, keys);
      quote := "";
      assert t + quote == t;
    } else {
      var n := |t| - 1;
      before, key := CutKey(t[..n], keys);
      quote := t[n..];
      assert t == t[..n] + quote && quote == [t[n]];
    }
  }

  lemma WordHasCut(u: string, end: string, word: string)
    requires EndsWithWord(u, word) && Blank(end)
    ensures HasWordCut(u + end, word)
  {
    var n := |u| - |word|;
    KeyIsSuffix(u[..n], u[n..], word);
    assert u == u[..n] + u[n..];
    assert WordCut(u + end, u[..n], u[n..], end, word);
  }

  lemma FieldHasCut(u: string, end: string, keys: seq<string>)
    requires EndsWithField(u, keys) && Blank(end)
    ensures HasFieldCut(u + end, keys)
  {
    var before, key, quote := CutField(u, keys);
    var c := Cut(before, key, quote, "", "", end);
    assert u + "" == u;
    assert FieldCut(u + end, c, keys);
  }

  lemma AssignmentHasCut(u: string, end: string, keys: seq<string>)
    requires EndsWithAssignment(u, keys) && Blank(end)
    ensures HasFieldCut(u + end, keys)
  {
    var n := |u| - 1;
    var gap := SplitEnd(u[..n]);
    var before, key, quote := CutField(BeforeLast(u), keys);
    var c := Cut(before, key, quote, gap, [u[n]], end);
    assert u == u[..n] + [u[n]];
    assert FieldCut(u + end, c, keys);
  }

  lemma MatchHasCut(t: string, keys: seq<string>, word: string)
    requires MayPrecede(t, keys, word)
    ensures HasFieldCut(t, keys) || HasWordCut(t, word)
  {
    var end := SplitEnd(t);
    var u := TrimEnd(t);
    if EndsWithWord(u, word) {
      WordHasCut(u, end, word);
    } else if EndsWithField(u, keys) {
      FieldHasCut(u, end, keys);
    } else {
      AssignmentHasCut(u, end, keys);
    }
  }

  /** The pattern, for any keys and word: exactly the texts that can be cut that way. */
  lemma MatchesIff(t: string, keys: seq<string>, word: string)
    requires Short(keys) && Solid(word) && word != ""
    ensures MayPrecede(t, keys, word) <==> HasFieldCut(t, keys) || HasWordCut(t, word)
  {
    if MayPrecede(t, keys, word) {
      MatchHasCut(t, keys, word);
    } else if HasFieldCut(t, keys) {
      var c :| FieldCut(t, c, keys);
      FieldCutMatches(t, c, keys, word);
    } else if HasWordCut(t, word) {
      var before, said, end :| WordCut(t, before, said, end, word);
      WordCutMatches(t, before, said, end, keys, word);
    }
  }

  /** The text may be followed by a secret: a token key and what may stand between it and its value, or `bearer`. */
  ghost predicate AwaitsSecret(t: string) {
    HasFieldCut(t, TokenKeys()) || HasWordCut(t, "bearer")
  }

  /** The program's pattern matches exactly the texts a secret may follow. */
  lemma IncompleteIff(t: string)
    ensures Incomplete(t) <==> AwaitsSecret(t)
  {
    TokenKeysAreShort();
    MatchesIff(t, TokenKeys(), "bearer");
  }

  predicate NamedToken(key: string, name: string, separator: string) {
    && (name == "session" || name == "auth" || name == "api")
    && (separator == "" || separator == "_" || separator == "-")
    && key == name + separator + "token"
  }

  lemma SessionKeys(key: string)
    ensures key in SESSION_KEYS <==>
              NamedToken(key, "session", "") || NamedToken(key, "session", "_") || NamedToken(key, "session", "-")
  {
    assert "session" + "" + "token" == SESSION_KEYS[0];
    assert "session" + "_" + "token" == SESSION_KEYS[1];
    assert "session" + "-" + "token" == SESSION_KEYS[2];
  }

  lemma AuthKeys(key: string)
    ensures key in AUTH_KEYS <==> NamedToken(key, "auth", "") || NamedToken(key, "auth", "_") || NamedToken(key, "auth", "-")
  {
    assert "auth" + "" + "token" == AUTH_KEYS[0];
    assert "auth" + "_" + "token" == AUTH_KEYS[1];
    assert "auth" + "-" + "token" == AUTH_KEYS[2];
  }

  lemma ApiKeys(key: string)
    ensures key in API_KEYS <==> NamedToken(key, "api", "") || NamedToken(key, "api", "_") || NamedToken(key, "api", "-")
  {
    assert "api" + "" + "token" == API_KEYS[0];
    assert "api" + "_" + "token" == API_KEYS[1];
    assert "api" + "-" + "token" == API_KEYS[2];
  }

  /** The keys: three that are spelled one way, and three names before `token`, with a separator or without. */
  lemma TokenKeysAre(key: string)
    ensures key in TokenKeys() <==>
              || key == "access_token" || key == "refresh_token" || key == "id_token"
              || (exists name, separator :: NamedToken(key, name, separator))
  {
    KeysInGroups(key);
    SessionKeys(key);
    AuthKeys(key);
    ApiKeys(key);
  }

  lemma KeysInGroups(key: string)
    ensures key in TokenKeys() <==> key in PLAIN_KEYS || key in SESSION_KEYS || key in AUTH_KEYS || key in API_KEYS
  {
  }
}
