/** Rewriting a command line so that it resumes a session and keeps the global options it had. */
module ResumeArgs {
  import opened Prelude

  datatype Arity = Single | Variadic

  datatype OptionValue = OptionValue(arity: Arity, attached: bool)

  /** What the rewriting knows about arguments: global options and how they take values, and the flags
      that select a session by themselves. */
  datatype Grammar = Grammar(resolve: string -> Option<OptionValue>, selectors: set<string>) {
    ghost predicate Valid() {
      && (forall a :: resolve(a).Some? ==> Dashed(a))
      && (forall a :: a in selectors ==> Dashed(a) && a != END)
    }
  }

  const END := "--"

  predicate Dashed(a: string) {
    a != "" && a[0] == '-'
  }

  // ---------- The grammar of the program ----------

  const SINGLE_SHORT := {"-a", "-c", "-C", "-m", "-p", "-s"}
  const SINGLE_RUN := {"--ask-for-approval", "--config", "--cd", "--model", "--profile", "--sandbox"}
  const SINGLE_FEATURE := {"--add-dir", "--disable", "--enable", "--local-provider", "--remote", "--remote-auth-token-env"}
  const SELECTORS := {"--last", "--all", "--include-non-interactive"}

  function ExactArity(a: string): Option<Arity> {
    if a == "-i" || a == "--image" then Some(Variadic)
    else if a in SINGLE_SHORT || a in SINGLE_RUN || a in SINGLE_FEATURE then Some(Single)
    else None
  }

  /** The position of the first '=', or the length. */
  function EqualsIndex(a: string): (n: nat)
    ensures n <= |a|
  {
    if a == "" || a[0] == '=' then 0 else 1 + EqualsIndex(a[1..])
  }

  /** An option of the table, alone or with its value attached. */
  function ResolveBy(exact: string -> Option<Arity>, a: string): Option<OptionValue> {
    if exact(a).Some? then Some(OptionValue(exact(a).value, false))
    else if |a| >= 2 && a[0] == '-' && a[1] == '-' then
      var n := EqualsIndex(a);
      if 2 < n < |a| && exact(a[..n]).Some? then Some(OptionValue(exact(a[..n]).value, true)) else None
    else if |a| > 2 && a[0] == '-' && exact(a[..2]).Some? then Some(OptionValue(exact(a[..2]).value, true))
    else None
  }

  function ResolveOption(a: string): Option<OptionValue> {
    ResolveBy(ExactArity, a)
  }

  function Codex(): Grammar {
    Grammar(ResolveOption, SELECTORS)
  }

  lemma ShortIsDashed(a: string)
    ensures a in SINGLE_SHORT ==> Dashed(a)
  {
  }

  lemma RunIsDashed(a: string)
    ensures a in SINGLE_RUN ==> Dashed(a)
  {
  }

  lemma FeatureIsDashed(a: string)
    ensures a in SINGLE_FEATURE ==> Dashed(a)
  {
  }

  lemma SelectorIsDashed(a: string)
    ensures a in SELECTORS ==> Dashed(a) && a != END
  {
  }

  lemma ExactIsDashed(a: string)
    ensures ExactArity(a).Some? ==> Dashed(a)
  {
    ShortIsDashed(a);
    RunIsDashed(a);
    FeatureIsDashed(a);
  }

  lemma ResolvedIsDashed(exact: string -> Option<Arity>, a: string)
    requires exact(a).Some? ==> Dashed(a)
    ensures ResolveBy(exact, a).Some? ==> Dashed(a)
  {
  }

  lemma CodexIsValid()
    ensures Codex().Valid()
  {
    forall a ensures ResolveOption(a).Some? ==> Dashed(a) {
      ExactIsDashed(a);
      ResolvedIsDashed(ExactArity, a);
    }
    forall a ensures a in SELECTORS ==> Dashed(a) && a != END {
      SelectorIsDashed(a);
    }
  }

  // ---------- Parsing the options before "--" ----------

  /** An option with the values it consumed. */
  datatype Item = Item(option: string, values: seq<string>)

  /** How many arguments from the front are not options. */
  function Plain(args: seq<string>): (n: nat)
    ensures n <= |args| && (n < |args| ==> Dashed(args[n])) && forall i :: 0 <= i < n ==> !Dashed(args[i])
  {
    if args == [] || Dashed(args[0]) then 0 else 1 + Plain(args[1..])
  }

  /** How many arguments after an option belong to it. */
  function ValueCount(g: Grammar, option: string, rest: seq<string>): (n: nat)
    ensures n <= |rest|
  {
    var v := g.resolve(option);
    if v.None? || v.value.attached then 0
    else if v.value.arity.Variadic? then Plain(rest)
    else if rest == [] then 0
    else 1
  }

  predicate Kept(g: Grammar, a: string) {
    a !in g.selectors && (g.resolve(a).Some? || Dashed(a))
  }

  /** The options that are kept: everything dashed except session selectors, each with its values. */
  function Parse(g: Grammar, args: seq<string>): seq<Item>
    decreases |args|
  {
    if args == [] then []
    else if Kept(g, args[0]) then
      var n := ValueCount(g, args[0], args[1..]);
      [Item(args[0], args[1..n + 1])] + Parse(g, args[n + 1..])
    else Parse(g, args[1..])
  }

  function Flatten(items: seq<Item>): seq<string> {
    if items == [] then [] else [items[0].option] + items[0].values + Flatten(items[1..])
  }

  /** The position of the first "--", or the length. */
  function EndIndex(args: seq<string>): (n: nat)
    ensures n <= |args| && (n < |args| ==> args[n] == END) && forall i :: 0 <= i < n ==> args[i] != END
  {
    if args == [] || args[0] == END then 0 else 1 + EndIndex(args[1..])
  }

  function Build(g: Grammar, args: seq<string>, id: string): seq<string> {
    var n := EndIndex(args);
    ["resume", id] + Flatten(Parse(g, args[..n])) + args[n..]
  }

  // ---------- How arguments are read ----------

  /** An option of the table stands alone; or it is a long name, '=' and a value, or a short name and a value. */
  lemma ResolveIff(exact: string -> Option<Arity>, a: string)
    ensures var r := ResolveBy(exact, a);
            && (r.Some? && !r.value.attached <==> exact(a).Some?)
            && (exact(a).Some? ==> r.value.arity == exact(a).value)
            && (r.Some? && r.value.attached <==>
                  exact(a).None? && ((exists name, value :: LongForm(exact, a, name, value)) || ShortForm(exact, a)))
  {
    var n := EqualsIndex(a);
    EqualsIndexIs(a);
    if n < |a| {
      assert a == a[..n] + "=" + a[n + 1..];
      assert exact(a[..n]).Some? && n > 2 && a[0] == '-' && a[1] == '-' ==> LongForm(exact, a, a[..n], a[n + 1..]);
    }
    forall name, value | LongForm(exact, a, name, value) ensures n == |name| && a[..n] == name {
      assert a[|name|] == '=';
      assert forall i :: 0 <= i < |name| ==> a[i] == name[i];
    }
  }

  /** A long option with its value attached. */
  predicate LongForm(exact: string -> Option<Arity>, a: string, name: string, value: string) {
    a == name + "=" + value && |name| > 2 && name[0] == '-' && name[1] == '-' && '=' !in name && exact(name).Some?
  }

  /** A short option with its value attached. */
  predicate ShortForm(exact: string -> Option<Arity>, a: string) {
    |a| > 2 && a[0] == '-' && a[1] != '-' && exact(a[..2]).Some?
  }

  lemma {:induction false} EqualsIndexIs(a: string)
    ensures var n := EqualsIndex(a); (n < |a| ==> a[n] == '=') && '=' !in a[..n]
  {
    if a != "" && a[0] != '=' {
      EqualsIndexIs(a[1..]);
      assert a[..EqualsIndex(a)] == [a[0]] + a[1..][..EqualsIndex(a) - 1];
    }
  }

  /** Session selectors and arguments that belong to no option are dropped. */
  lemma ReadDropped(g: Grammar, a: string, rest: seq<string>)
    requires a in g.selectors || (!Dashed(a) && g.resolve(a).None?)
    ensures Parse(g, [a] + rest) == Parse(g, rest)
  {
    assert ([a] + rest)[1..] == rest;
  }

  /** An option with an attached value, and an unknown one, is kept and takes no argument. */
  lemma ReadFlag(g: Grammar, a: string, rest: seq<string>)
    requires a !in g.selectors && (if g.resolve(a).Some? then g.resolve(a).value.attached else Dashed(a))
    ensures Parse(g, [a] + rest) == [Item(a, [])] + Parse(g, rest)
  {
    var args := [a] + rest;
    assert args[1..] == rest && args[1..1] == [];
  }

  /** An option that takes one value takes the next argument, whatever it is, if there is one. */
  lemma ReadSingle(g: Grammar, a: string, rest: seq<string>)
    requires a !in g.selectors && g.resolve(a) == Some(OptionValue(Single, false))
    ensures Parse(g, [a] + rest) == if rest == [] then [Item(a, [])] else [Item(a, [rest[0]])] + Parse(g, rest[1..])
  {
    var args := [a] + rest;
    assert args[1..] == rest;
    if rest == [] {
      assert args[1..1] == [] && Parse(g, []) == [];
      assert [Item(a, [])] + [] == [Item(a, [])];
    } else {
      assert args[1..2] == [rest[0]] && args[2..] == rest[1..];
    }
  }

  /** A variadic option takes every argument up to the next dashed one. */
  lemma ReadVariadic(g: Grammar, a: string, values: seq<string>, rest: seq<string>)
    requires a !in g.selectors && g.resolve(a) == Some(OptionValue(Variadic, false))
    requires (forall i :: 0 <= i < |values| ==> !Dashed(values[i])) && (rest != [] ==> Dashed(rest[0]))
    ensures Parse(g, [a] + values + rest) == [Item(a, values)] + Parse(g, rest)
  {
    var args := [a] + values + rest;
    assert args[1..] == values + rest;
    PlainThenDashed(values, rest);
    assert args[1..|values| + 1] == values && args[|values| + 1..] == rest;
  }

  /** Every dashed argument that is not a session selector survives, as often as it was given. */
  lemma {:induction false} DashedAreKept(g: Grammar, args: seq<string>, a: string)
    requires Dashed(a) && a !in g.selectors
    ensures multiset(Flatten(Parse(g, args)))[a] == multiset(args)[a]
    decreases |args|
  {
    if args != [] {
      if Kept(g, args[0]) {
        var n := ValueCount(g, args[0], args[1..]);
        var rest := args[n + 1..];
        DashedAreKept(g, rest, a);
        FlattenFirst(Item(args[0], args[1..n + 1]), Parse(g, rest));
        assert args == [args[0]] + args[1..n + 1] + rest;
      } else {
        DashedAreKept(g, args[1..], a);
        assert args == [args[0]] + args[1..];
      }
    }
  }

  // ---------- What rewriting keeps ----------

  ghost predicate IsSubsequence<T(!new)>(a: seq<T>, b: seq<T>)
    decreases |b|
  {
    a == [] || (b != [] && (IsSubsequence(a, b[1..]) || (a[0] == b[0] && IsSubsequence(a[1..], b[1..]))))
  }

  lemma {:induction false} SubsequencePrepend<T(!new)>(c: seq<T>, a: seq<T>, b: seq<T>)
    requires IsSubsequence(a, b)
    ensures IsSubsequence(c + a, c + b)
    decreases |c|
  {
    if c == [] {
      assert c + a == a && c + b == b;
    } else {
      SubsequencePrepend(c[1..], a, b);
      assert (c + a)[1..] == c[1..] + a && (c + b)[1..] == c[1..] + b;
    }
  }

  /** The kept arguments are a subsequence of the arguments before "--". */
  lemma {:induction false} KeptIsSubsequence(g: Grammar, args: seq<string>)
    ensures IsSubsequence(Flatten(Parse(g, args)), args)
    decreases |args|
  {
    if args != [] {
      if Kept(g, args[0]) {
        var n := ValueCount(g, args[0], args[1..]);
        var item, rest := Item(args[0], args[1..n + 1]), args[n + 1..];
        KeptIsSubsequence(g, rest);
        SubsequencePrepend(args[..n + 1], Flatten(Parse(g, rest)), rest);
        FlattenFirst(item, Parse(g, rest));
        assert [item.option] + item.values == args[..n + 1];
        assert args[..n + 1] + rest == args;
      } else {
        KeptIsSubsequence(g, args[1..]);
      }
    }
  }

  /** Kept arguments start with an option. */
  lemma FlattenStartsDashed(g: Grammar, args: seq<string>)
    requires g.Valid()
    ensures var f := Flatten(Parse(g, args)); f != [] ==> Dashed(f[0])
    decreases |args|
  {
    if args != [] && !Kept(g, args[0]) {
      FlattenStartsDashed(g, args[1..]);
    }
  }

  lemma {:induction false} PlainThenDashed(values: seq<string>, rest: seq<string>)
    requires (forall i :: 0 <= i < |values| ==> !Dashed(values[i])) && (rest != [] ==> Dashed(rest[0]))
    ensures Plain(values + rest) == |values|
    decreases |values|
  {
    if values == [] {
      assert values + rest == rest;
    } else {
      assert (values + rest)[1..] == values[1..] + rest;
      PlainThenDashed(values[1..], rest);
    }
  }

  /** An option takes the same values again when they are followed by kept arguments only. */
  lemma ValuesTakenAgain(g: Grammar, option: string, rest: seq<string>, kept: seq<string>)
    requires kept != [] ==> Dashed(kept[0])
    requires var n := ValueCount(g, option, rest); n == |rest| && g.resolve(option) == Some(OptionValue(Single, false)) && n == 0 ==> kept == []
    ensures var n := ValueCount(g, option, rest); ValueCount(g, option, rest[..n] + kept) == n
  {
    var n := ValueCount(g, option, rest);
    var v := g.resolve(option);
    if v.Some? && !v.value.attached && v.value.arity.Variadic? {
      PlainThenDashed(rest[..n], kept);
    }
  }

  /** Kept arguments that start with an option and its values parse into them again. */
  lemma ParseItem(g: Grammar, item: Item, kept: seq<string>, items: seq<Item>)
    requires Kept(g, item.option) && Parse(g, kept) == items
    requires ValueCount(g, item.option, item.values + kept) == |item.values|
    ensures Parse(g, [item.option] + item.values + kept) == [item] + items
  {
    var f, n := [item.option] + item.values + kept, |item.values|;
    assert f[0] == item.option && f[1..] == item.values + kept && f[1..n + 1] == item.values && f[n + 1..] == kept;
  }

  /** Parsing the kept arguments again gives the same options, each with its own values. */
  lemma {:induction false} ParseFlatten(g: Grammar, args: seq<string>)
    requires g.Valid()
    ensures Parse(g, Flatten(Parse(g, args))) == Parse(g, args)
    decreases |args|
  {
    if args != [] {
      if Kept(g, args[0]) {
        var n := ValueCount(g, args[0], args[1..]);
        var item, rest := Item(args[0], args[1..n + 1]), args[n + 1..];
        var kept := Flatten(Parse(g, rest));
        ParseFlatten(g, rest);
        FlattenStartsDashed(g, rest);
        assert args[1..][..n] == item.values;
        NoneLeft(args, n);
        ValuesTakenAgain(g, args[0], args[1..], kept);
        FlattenFirst(item, Parse(g, rest));
        ParseItem(g, item, kept, Parse(g, rest));
      } else {
        ParseFlatten(g, args[1..]);
      }
    }
  }

  lemma NoneLeft(args: seq<string>, n: nat)
    requires n < |args|
    ensures n == |args| - 1 ==> args[n + 1..] == []
  {
  }

  lemma FlattenFirst(item: Item, items: seq<Item>)
    ensures Flatten([item] + items) == [item.option] + item.values + Flatten(items)
  {
    assert ([item] + items)[1..] == items;
  }

  lemma {:induction false} KeptHasNoEnd(g: Grammar, args: seq<string>)
    requires END !in args
    ensures END !in Flatten(Parse(g, args))
    decreases |args|
  {
    if args != [] {
      if Kept(g, args[0]) {
        var n := ValueCount(g, args[0], args[1..]);
        var rest := args[n + 1..];
        KeptHasNoEnd(g, rest);
        FlattenFirst(Item(args[0], args[1..n + 1]), Parse(g, rest));
      } else {
        KeptHasNoEnd(g, args[1..]);
      }
    }
  }

  lemma {:induction false} EndIndexAfter(a: seq<string>, b: seq<string>)
    requires END !in a && (b != [] ==> b[0] == END)
    ensures EndIndex(a + b) == |a|
    decreases |a|
  {
    if a == [] {
      assert a + b == b;
    } else {
      assert (a + b)[1..] == a[1..] + b;
      EndIndexAfter(a[1..], b);
    }
  }

  /** An id the rewriting drops when it meets it again. */
  predicate Droppable(g: Grammar, id: string) {
    !Dashed(id) || id in g.selectors
  }

  lemma SkipResumeAndId(g: Grammar, id: string, kept: seq<string>)
    requires g.Valid() && Droppable(g, id)
    ensures Parse(g, ["resume", id] + kept) == Parse(g, kept)
  {
    var args := ["resume", id] + kept;
    assert args[1..] == [id] + kept && args[1..][1..] == kept;
    assert !Dashed("resume");
    assert !Kept(g, args[0]) && !Kept(g, args[1..][0]);
  }

  /** Rebuilding a rebuilt command line changes the session id and nothing else. */
  lemma RebuildChangesIdOnly(g: Grammar, args: seq<string>, id: string, id': string)
    requires g.Valid() && Droppable(g, id)
    ensures Build(g, Build(g, args, id), id') == Build(g, args, id')
  {
    var n := EndIndex(args);
    var kept := Flatten(Parse(g, args[..n]));
    var head := ["resume", id] + kept;
    assert END !in args[..n];
    KeptHasNoEnd(g, args[..n]);
    assert END !in head by { assert Dashed(END); assert !Dashed("resume"); }
    EndIndexAfter(head, args[n..]);
    var built := head + args[n..];
    assert built == Build(g, args, id);
    assert built[..|head|] == head && built[|head|..] == args[n..];
    SkipResumeAndId(g, id, kept);
    ParseFlatten(g, args[..n]);
  }

  ghost predicate RewritesCleanly(g: Grammar, id: string) {
    forall args, id' :: Build(g, Build(g, args, id), id') == Build(g, args, id')
  }

  lemma UndroppableIdAccumulates(g: Grammar, id: string)
    requires g.Valid() && !Droppable(g, id)
    ensures Build(g, Build(g, [], id), "x") != Build(g, [], "x")
  {
    BuiltFromNothing(g, id);
    BuiltFromNothing(g, "x");
    DashedIdStays(g, id, "x");
  }

  lemma DroppableRewrites(g: Grammar, id: string)
    requires g.Valid() && Droppable(g, id)
    ensures RewritesCleanly(g, id)
  {
    forall args, id' ensures Build(g, Build(g, args, id), id') == Build(g, args, id') {
      RebuildChangesIdOnly(g, args, id, id');
    }
  }

  /** Exactly the ids that are not dashed, or are session selectors, can be rewritten any number of times. */
  lemma RebuildIff(g: Grammar, id: string)
    requires g.Valid()
    ensures Droppable(g, id) <==> RewritesCleanly(g, id)
  {
    if Droppable(g, id) {
      DroppableRewrites(g, id);
    } else {
      UndroppableIdAccumulates(g, id);
      NotClean(g, id, [], "x");
    }
  }

  lemma NotClean(g: Grammar, id: string, args: seq<string>, id': string)
    requires Build(g, Build(g, args, id), id') != Build(g, args, id')
    ensures !RewritesCleanly(g, id)
  {
  }

  lemma BuiltFromNothing(g: Grammar, id: string)
    ensures Build(g, [], id) == ["resume", id]
  {
    assert Parse(g, []) == [] && Flatten([]) == [];
  }

  lemma DashedIdStays(g: Grammar, id: string, id': string)
    requires g.Valid() && !Droppable(g, id)
    ensures |Build(g, ["resume", id], id')| == 3
  {
    var args := ["resume", id];
    assert args[1..] == [id] && [id][1..] == [];
    assert !Kept(g, "resume") by { assert !Dashed("resume"); }
    if id == END {
      assert EndIndex(args) == 1 && args[..1] == ["resume"] && args[1..] == [END];
      assert ["resume"][1..] == [] && Parse(g, ["resume"]) == [];
    } else {
      assert EndIndex(args) == 1 + EndIndex([id]) == 2 && args[..2] == args && args[2..] == [];
      var item := Item(id, []);
      assert ValueCount(g, id, []) == 0;
      assert [id][1..1] == [] && Parse(g, [id]) == [item] + Parse(g, []) == [item];
      assert Parse(g, args) == [item] && [item][1..] == [];
      assert Flatten([item]) == [id] + [] + [] == [id];
    }
  }

  /** Everything from "--" onward is unchanged. */
  lemma SuffixUnchanged(g: Grammar, args: seq<string>, id: string)
    ensures var n := EndIndex(args); var built := Build(g, args, id);
            built[|built| - (|args| - n)..] == args[n..]
  {
  }

  /** The loop of the program. */
  method BuildResumeArgs(g: Grammar, originalArgs: seq<string>, sessionId: string) returns (r: seq<string>)
    ensures r == Build(g, originalArgs, sessionId)
  {
    var end := EndIndex(originalArgs);
    var prefix, suffix := originalArgs[..end], originalArgs[end..];
    var preserved := Preserve(g, prefix);
    r := ["resume", sessionId] + preserved + suffix;
  }

  method Preserve(g: Grammar, prefix: seq<string>) returns (preserved: seq<string>)
    ensures preserved == Flatten(Parse(g, prefix))
  {
    preserved := [];
    var index := 0;
    ghost var all := Remaining(g, prefix, 0);
    assert prefix[0..] == prefix && preserved + all == all;
    while index < |prefix|
      invariant 0 <= index <= |prefix|
      invariant preserved + Remaining(g, prefix, index) == all
    {
      var arg := prefix[index];
      ParseFirst(g, prefix, index, preserved);
      if arg in g.selectors {
        index := index + 1;
        continue;
      }
      var value := g.resolve(arg);
      if value.Some? {
        var next := ValuesEnd(g, prefix, index, value.value);
        preserved := preserved + [arg] + prefix[index + 1..next];
        index := next;
        continue;
      }
      if Dashed(arg) {
        NoValues(preserved, arg, prefix[index + 1..index + 1]);
        preserved := preserved + [arg];
      }
      index := index + 1;
    }
    NothingRemains(g, prefix, preserved);
  }

  lemma NoValues(preserved: seq<string>, arg: string, values: seq<string>)
    requires values == []
    ensures preserved + [arg] + values == preserved + [arg]
  {
  }

  lemma NothingRemains(g: Grammar, prefix: seq<string>, preserved: seq<string>)
    ensures preserved + Remaining(g, prefix, |prefix|) == preserved
  {
    assert prefix[|prefix|..] == [];
  }

  /** Where the values of an option end: an attached value takes no further argument, a variadic option
      takes everything up to the next dash, any other the next argument if there is one. */
  method ValuesEnd(g: Grammar, prefix: seq<string>, index: nat, value: OptionValue) returns (next: nat)
    requires index < |prefix| && g.resolve(prefix[index]) == Some(value)
    ensures next == index + 1 + ValueCount(g, prefix[index], prefix[index + 1..])
  {
    if value.attached {
      return index + 1;
    }
    if value.arity.Variadic? {
      next := TakePlain(prefix, index + 1);
      return;
    }
    return if index + 1 < |prefix| then index + 2 else index + 1;
  }

  /** Where a run of non-option arguments ends. */
  method TakePlain(args: seq<string>, from: nat) returns (n: nat)
    requires from <= |args|
    ensures n == from + Plain(args[from..])
  {
    n := from;
    while n < |args| && !Dashed(args[n])
      invariant from <= n <= |args|
      invariant from + Plain(args[from..]) == n + Plain(args[n..])
    {
      assert args[n..][1..] == args[n + 1..];
      n := n + 1;
    }
  }

  /** What the arguments from i on contribute. */
  function Remaining(g: Grammar, args: seq<string>, i: nat): seq<string>
    requires i <= |args|
  {
    Flatten(Parse(g, args[i..]))
  }

  lemma Regroup(a: seq<string>, b: seq<string>, c: seq<string>, d: seq<string>)
    ensures a + (b + c + d) == (a + b + c) + d
  {
  }

  /** One round of parsing, after `done` has been collected. */
  lemma ParseFirst(g: Grammar, args: seq<string>, i: nat, done: seq<string>)
    requires i < |args|
    ensures if Kept(g, args[i]) then
              var next := i + 1 + ValueCount(g, args[i], args[i + 1..]);
              done + Remaining(g, args, i) == (done + [args[i]] + args[i + 1..next]) + Remaining(g, args, next)
            else Remaining(g, args, i) == Remaining(g, args, i + 1)
  {
    var rest := args[i..];
    assert rest[1..] == args[i + 1..];
    if Kept(g, args[i]) {
      var n := ValueCount(g, args[i], args[i + 1..]);
      assert rest[1..n + 1] == args[i + 1..i + 1 + n] && rest[n + 1..] == args[i + 1 + n..];
      var item := Item(args[i], rest[1..n + 1]);
      FlattenFirst(item, Parse(g, rest[n + 1..]));
      Regroup(done, [item.option], item.values, Remaining(g, args, i + 1 + n));
    }
  }
}
