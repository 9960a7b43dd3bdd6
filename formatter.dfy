/** The formatter object: a template, the arguments bound to it by name and by position,
    the binding operations that refuse a name twice, and `fmt`, the loop that drives the
    scanner over the template and substitutes every placeholder. */
module Formatter {
  import opened Errors
  import opened Values
  import opened Resolver
  import opened Scanner

  // ---------------------------------------------------------------------------------
  // Binding by name.

  /** The name map after a binding operation, and whether the operation completed. */
  datatype Bound = Bound(named: map<string, Value>, outcome: Outcome)

  /** Binds the entries in order; the first name already present stops the operation with
      ArgumentAlreadyExists, keeping what the earlier entries bound. */
  function BindEntries(named: map<string, Value>, entries: seq<(string, Value)>): (r: Bound)
    ensures forall k :: k in named ==> k in r.named && r.named[k] == named[k]
    ensures forall k :: k in r.named ==> k in named || exists j :: 0 <= j < |entries| && entries[j].0 == k
    ensures r.outcome.Fail? ==>
              exists j :: 0 <= j < |entries| && r.outcome == Fail(ArgumentAlreadyExists(entries[j].0))
    decreases |entries|
  {
    if entries == [] then Bound(named, Pass)
    else
      var (name, v) := entries[0];
      if name in named then Bound(named, Fail(ArgumentAlreadyExists(name)))
      else
        var r := BindEntries(named[name := v], entries[1..]);
        assert forall j :: 0 <= j < |entries| - 1 ==> entries[1..][j] == entries[j + 1];
        r
  }

  /** The map the entries denote (a later entry wins, which cannot matter for distinct names). */
  function EntriesMap(entries: seq<(string, Value)>): (m: map<string, Value>)
    ensures m.Keys == set j | 0 <= j < |entries| :: entries[j].0
  {
    if entries == [] then map[]
    else
      var last := entries[|entries| - 1];
      var m := EntriesMap(entries[..|entries| - 1])[last.0 := last.1];
      assert forall j :: 0 <= j < |entries| - 1 ==> entries[..|entries| - 1][j] == entries[j];
      m
  }

  /** The entry at `j` cannot be bound: its name is already present, or an earlier entry has it. */
  predicate Clashes(named: map<string, Value>, entries: seq<(string, Value)>, j: nat)
    requires j < |entries|
  {
    entries[j].0 in named || exists m :: 0 <= m < j && entries[m].0 == entries[j].0
  }

  /** The first entry at or after `j` that cannot be bound, or the number of entries. */
  function FirstClash(named: map<string, Value>, entries: seq<(string, Value)>, j: nat): (f: nat)
    requires j <= |entries|
    ensures j <= f <= |entries|
    ensures forall m :: j <= m < f ==> !Clashes(named, entries, m)
    ensures f < |entries| ==> Clashes(named, entries, f)
    decreases |entries| - j
  {
    if j == |entries| || Clashes(named, entries, j) then j else FirstClash(named, entries, j + 1)
  }

  /** Pairwise distinct names: what a Java map's entry set guarantees. */
  predicate DistinctNames(entries: seq<(string, Value)>) {
    forall j, m :: 0 <= j < m < |entries| ==> entries[j].0 != entries[m].0
  }

  lemma EntriesMapExtend(named: map<string, Value>, entries: seq<(string, Value)>, j: nat)
    requires j < |entries|
    ensures (named + EntriesMap(entries[..j]))[entries[j].0 := entries[j].1] ==
            named + EntriesMap(entries[..j + 1])
  {
    assert entries[..j + 1][..j] == entries[..j];
  }

  lemma {:induction false} BindEntriesFrom(named: map<string, Value>, entries: seq<(string, Value)>, j: nat)
    requires j <= |entries|
    requires forall m :: 0 <= m < j ==> !Clashes(named, entries, m)
    ensures var f := FirstClash(named, entries, j);
            BindEntries(named + EntriesMap(entries[..j]), entries[j..]) ==
            Bound(named + EntriesMap(entries[..f]),
                  if f == |entries| then Pass else Fail(ArgumentAlreadyExists(entries[f].0)))
    decreases |entries| - j
  {
    var cur := named + EntriesMap(entries[..j]);
    if j < |entries| {
      var name := entries[j].0;
      assert entries[j..][0] == entries[j];
      assert name in cur <==> Clashes(named, entries, j) by {
        assert EntriesMap(entries[..j]).Keys == set m | 0 <= m < j :: entries[..j][m].0;
        assert forall m :: 0 <= m < j ==> entries[..j][m] == entries[m];
      }
      if !Clashes(named, entries, j) {
        EntriesMapExtend(named, entries, j);
        assert entries[j..][1..] == entries[j + 1..];
        BindEntriesFrom(named, entries, j + 1);
      }
    } else {
      assert entries[..j] == entries;
    }
  }

  /** The reference reading of a binding: the entries before the first clash are bound, all
      of them and only them, and the operation fails exactly when there is a clash, naming
      the clashing entry's name. */
  lemma BindEntriesByClash(named: map<string, Value>, entries: seq<(string, Value)>)
    ensures var f := FirstClash(named, entries, 0);
            BindEntries(named, entries) ==
            Bound(named + EntriesMap(entries[..f]),
                  if f == |entries| then Pass else Fail(ArgumentAlreadyExists(entries[f].0)))
  {
    assert entries[..0] == [];
    assert named + EntriesMap([]) == named;
    assert entries[0..] == entries;
    BindEntriesFrom(named, entries, 0);
  }

  /** Entries with distinct names, none already present, all bind. */
  lemma BindFreshEntries(named: map<string, Value>, entries: seq<(string, Value)>)
    requires DistinctNames(entries)
    requires forall j :: 0 <= j < |entries| ==> entries[j].0 !in named
    ensures BindEntries(named, entries) == Bound(named + EntriesMap(entries), Pass)
  {
    assert FirstClash(named, entries, 0) == |entries| by {
      var f := FirstClash(named, entries, 0);
      if f < |entries| {
        assert false;
      }
    }
    BindEntriesByClash(named, entries);
    assert entries[..|entries|] == entries;
  }

  /** A name already present is refused, and leaves the map as it was. */
  lemma BindPresentName(named: map<string, Value>, name: string, v: Value)
    requires name in named
    ensures BindEntries(named, [(name, v)]) == Bound(named, Fail(ArgumentAlreadyExists(name)))
  {
  }

  // ---------------------------------------------------------------------------------
  // Binding by alternating name/value items.

  /** The items read as name/value pairs, from item `i` on; the first name that is not a
      string stops the reading there. */
  function PairEntries(items: seq<Value>, i: nat): (r: seq<(string, Value)>)
    requires i % 2 == 0 && i <= |items| && |items| % 2 == 0
    ensures 2 * |r| <= |items| - i
    ensures forall j :: 0 <= j < |r| ==> items[i + 2 * j] == Str(r[j].0) && items[i + 2 * j + 1] == r[j].1
    ensures FirstNonName(items, i).None? ==> i + 2 * |r| == |items|
    ensures FirstNonName(items, i).Some? ==> i + 2 * |r| == FirstNonName(items, i).value
    decreases |items| - i
  {
    if i == |items| || !items[i].Str? then []
    else [(items[i].s, items[i + 1])] + PairEntries(items, i + 2)
  }

  /** The index of the first name item that is not a string, if any. */
  function FirstNonName(items: seq<Value>, i: nat): (r: Option<nat>)
    requires i % 2 == 0 && i <= |items| && |items| % 2 == 0
    ensures r.Some? ==> i <= r.value < |items| && r.value % 2 == 0 && !items[r.value].Str?
    ensures r.Some? ==> forall j :: i <= j < r.value && j % 2 == 0 ==> items[j].Str?
    ensures r.None? ==> forall j :: i <= j < |items| && j % 2 == 0 ==> items[j].Str?
    decreases |items| - i
  {
    if i == |items| then None
    else if !items[i].Str? then Some(i)
    else FirstNonName(items, i + 2)
  }

  /** args(Object...): an odd number of items fails before anything is bound; otherwise the
      pairs bind in order, stopped by the first clash or the first name that is not a string. */
  function BindPairs(named: map<string, Value>, items: seq<Value>, i: nat): (r: Bound)
    requires i % 2 == 0 && i <= |items|
    decreases |items| - i
  {
    if |items| % 2 == 1 then Bound(named, Fail(InvalidNumberOfArguments(|items|)))
    else if i == |items| then Bound(named, Pass)
    else if !items[i].Str? then Bound(named, Fail(NameNotAString(i)))
    else if items[i].s in named then Bound(named, Fail(ArgumentAlreadyExists(items[i].s)))
    else BindPairs(named[items[i].s := items[i + 1]], items, i + 2)
  }

  /** One pair of the loop of args(Object...), with an even number of items. */
  lemma BindPairsStep(named: map<string, Value>, items: seq<Value>, i: nat)
    requires i % 2 == 0 && i < |items| && |items| % 2 == 0
    ensures !items[i].Str? ==> BindPairs(named, items, i) == Bound(named, Fail(NameNotAString(i)))
    ensures items[i].Str? && items[i].s in named ==>
              BindPairs(named, items, i) == Bound(named, Fail(ArgumentAlreadyExists(items[i].s)))
    ensures items[i].Str? && items[i].s !in named ==>
              BindPairs(named, items, i) == BindPairs(named[items[i].s := items[i + 1]], items, i + 2)
  {
  }

  /** Binding pairs never changes or removes an existing binding, every new name is a name
      item, and a failure names an item that is there. */
  lemma {:induction false} BindPairsKeeps(named: map<string, Value>, items: seq<Value>, i: nat)
    requires i % 2 == 0 && i <= |items|
    ensures var r := BindPairs(named, items, i);
            forall k :: k in named ==> k in r.named && r.named[k] == named[k]
    ensures var r := BindPairs(named, items, i);
            forall k :: k in r.named ==> k in named || Str(k) in items[i..]
    ensures var r := BindPairs(named, items, i);
            r.outcome.Fail? && r.outcome.error.ArgumentAlreadyExists? ==> Str(r.outcome.error.name) in items[i..]
    ensures var r := BindPairs(named, items, i);
            r.outcome.Fail? && r.outcome.error.NameNotAString? ==>
              i <= r.outcome.error.at < |items| && r.outcome.error.at % 2 == 0 && !items[r.outcome.error.at].Str?
    decreases |items| - i
  {
    if |items| % 2 == 0 && i < |items| && items[i].Str? && items[i].s !in named {
      BindPairsKeeps(named[items[i].s := items[i + 1]], items, i + 2);
      assert forall x :: x in items[i + 2..] ==> x in items[i..] by {
        assert items[i..] == items[i..i + 2] + items[i + 2..];
      }
    }
  }

  /** An odd number of items changes nothing. */
  lemma OddPairsBindNothing(named: map<string, Value>, items: seq<Value>)
    requires |items| % 2 == 1
    ensures BindPairs(named, items, 0) == Bound(named, Fail(InvalidNumberOfArguments(|items|)))
  {
  }

  /** Pairs bind as the entries they spell do, up to the first name that is not a string,
      which then fails the operation if no clash came first. */
  lemma {:induction false} PairsAgreeWithEntries(named: map<string, Value>, items: seq<Value>, i: nat)
    requires i % 2 == 0 && i <= |items| && |items| % 2 == 0
    ensures var b := BindEntries(named, PairEntries(items, i));
            BindPairs(named, items, i) ==
              if b.outcome.Pass? && FirstNonName(items, i).Some?
              then Bound(b.named, Fail(NameNotAString(FirstNonName(items, i).value)))
              else b
    decreases |items| - i
  {
    if i < |items| && items[i].Str? {
      var name := items[i].s;
      var es := PairEntries(items, i);
      PairEntriesStep(items, i);
      BindPairsStep(named, items, i);
      BindEntriesStep(named, es);
      if name !in named {
        PairsAgreeWithEntries(named[name := items[i + 1]], items, i + 2);
      }
    }
  }

  /** A string name item contributes the first entry, and the reading goes on after its value. */
  lemma PairEntriesStep(items: seq<Value>, i: nat)
    requires i % 2 == 0 && i < |items| && |items| % 2 == 0 && items[i].Str?
    ensures PairEntries(items, i) != []
    ensures PairEntries(items, i)[0] == (items[i].s, items[i + 1])
    ensures PairEntries(items, i)[1..] == PairEntries(items, i + 2)
    ensures FirstNonName(items, i) == FirstNonName(items, i + 2)
  {
  }

  /** One entry of the front-first fold. */
  lemma BindEntriesStep(named: map<string, Value>, entries: seq<(string, Value)>)
    requires entries != []
    ensures entries[0].0 in named ==>
              BindEntries(named, entries) == Bound(named, Fail(ArgumentAlreadyExists(entries[0].0)))
    ensures entries[0].0 !in named ==>
              BindEntries(named, entries) == BindEntries(named[entries[0].0 := entries[0].1], entries[1..])
  {
  }

  // ---------------------------------------------------------------------------------
  // Resolving the paths of a template against the arguments.

  /** The resolver fmt uses: appendParamValue against this store and runtime. */
  function PathResolver(store: Store, rt: Runtime): Resolve {
    p => ParamValue(p, store, rt)
  }

  /** The resolver never reports a character error of its own, and consumes every path
      without a dot. */
  lemma PathResolverIsWellBehaved(store: Store, rt: Runtime)
    ensures NoCharacterErrors(PathResolver(store, rt))
    ensures ConsumesDotless(PathResolver(store, rt))
  {
    forall p ensures PathResolver(store, rt)(p) == ParamValue(p, store, rt) {
    }
  }

  /** An invalid-character failure of fmt names the template's character at its own index,
      inside an open placeholder. */
  lemma FmtErrorLocated(t: string, store: Store, rt: Runtime)
    ensures var r := Render(t, PathResolver(store, rt));
            r.Err? && r.error.InvalidCharacterInParam? ==>
              r.error.index < |t| && t[r.error.index] == r.error.c &&
              !ValidParamChar(r.error.c) && exists o :: OpenAt(t, o, r.error.index)
  {
    PathResolverIsWellBehaved(store, rt);
    RenderErrorLocated(t, 0, PathResolver(store, rt));
  }

  /** In a template without '.', the loop as written and the corrected loop agree. */
  lemma AsWrittenAgreesOnPlainPaths(t: string, store: Store, rt: Runtime)
    requires '.' !in t
    ensures RunAsWritten(t, PathResolver(store, rt), Start()) == Render(t, PathResolver(store, rt))
  {
    PathResolverIsWellBehaved(store, rt);
    AsWrittenAgreesWithoutDots(t, PathResolver(store, rt), Start());
    RunMatchesRender(t, PathResolver(store, rt));
  }

  /** The paths of the template `#{a.b}#{c}` with `a` and `bc` unbound and `c` bound to
      "C": the chain from null leaves "b" unconsumed. */
  lemma LeftoverPaths(store: Store, rt: Runtime)
    requires "a" !in store.named && "bc" !in store.named
    requires "c" in store.named && store.named["c"] == Str("C")
    ensures ParamValue("a.b", store, rt) == Ok(Substitution("null", "b"))
    ensures ParamValue("bc", store, rt) == Ok(Substitution("null", ""))
    ensures ParamValue("c", store, rt) == Ok(Substitution("C", ""))
  {
    UnboundDottedPath("a.b", store, rt);
    UnboundLetterPath("bc", store, rt);
    BoundLetterPath("c", Str("C"), store, rt);
  }

  lemma UnboundDottedPath(p: string, store: Store, rt: Runtime)
    requires p == "a.b" && "a" !in store.named
    ensures ParamValue(p, store, rt) == Ok(Substitution("null", "b"))
  {
    var head, rest := "a", "b";
    assert p == head + "." + rest;
    UnboundHeadLeavesRest(head, rest, store, rt);
  }

  lemma UnboundLetterPath(p: string, store: Store, rt: Runtime)
    requires p != "" && IsLetter(p[0]) && '.' !in p && p !in store.named
    ensures ParamValue(p, store, rt) == Ok(Substitution("null", ""))
  {
    LetterPath(p, store, rt);
  }

  lemma BoundLetterPath(p: string, v: Value, store: Store, rt: Runtime)
    requires p != "" && IsLetter(p[0]) && '.' !in p && p in store.named && store.named[p] == v
    ensures ParamValue(p, store, rt) == Ok(Substitution(Text(v, rt), ""))
  {
    LetterPath(p, store, rt);
  }

  lemma LetterPath(name: string, store: Store, rt: Runtime)
    requires name != "" && IsLetter(name[0]) && '.' !in name
    ensures ParamValue(name, store, rt) ==
              Ok(Substitution(if name in store.named then Text(store.named[name], rt) else "null", ""))
  {
    assert HasLetter(name);
    SimpleNamedPath(name, store, rt);
  }

  /** An unbound head followed by member segments renders "null" and consumes nothing
      after the head. */
  lemma UnboundHeadLeavesRest(head: string, rest: string, store: Store, rt: Runtime)
    requires head != "" && IsLetter(head[0]) && '.' !in head && head !in store.named && rest != ""
    ensures ParamValue(head + "." + rest, store, rt) == Ok(Substitution("null", rest))
  {
    assert HasLetter(head);
    MemberPath(head, rest, store, rt);
    ChainFromNull(rest, rt);
  }

  /** The loop as written carries an unconsumed rest into the next placeholder: with `a`
      unbound and `c` bound to "C", `#{a.b}` leaves "b" behind, so `#{c}` looks up "bc"
      and renders "null" where "C" was meant. */
  lemma AsWrittenCarriesLeftover(rt: Runtime)
    ensures var resolve := PathResolver(Store(map["c" := Str("C")], []), rt);
            RunAsWritten("#{a.b}#{c}", resolve, Start()) == Ok("nullnull") &&
            Render("#{a.b}#{c}", resolve) == Ok("nullC")
  {
    var store := Store(map["c" := Str("C")], []);
    var resolve := PathResolver(store, rt);
    assert "a" !in store.named && "bc" !in store.named && store.named["c"] == Str("C");
    LeftoverPaths(store, rt);
    LeftoverTraceAsWritten(resolve);
    LeftoverTraceCorrected(resolve);
  }

  lemma NamedIntegerPaths(rt: Runtime)
    ensures var store := Store(map["int3" := Int(5), "int2" := Int(7)], []);
            ParamValue("int3", store, rt) == Ok(Substitution("5", "")) &&
            ParamValue("int2", store, rt) == Ok(Substitution("7", ""))
  {
    var store := Store(map["int3" := Int(5), "int2" := Int(7)], []);
    assert store.named["int3"] == Int(5) && store.named["int2"] == Int(7);
    assert "int3"[0] == 'i' && "int2"[0] == 'i';
    LetterPath("int3", store, rt);
    LetterPath("int2", store, rt);
    assert IntText(5) == "5" && IntText(7) == "7";
  }

  /** The case of testFormatSimpleArguments: two named integers around a literal dash. */
  lemma NamedArgumentsExample(rt: Runtime)
    ensures Render("#{int3}-#{int2}", PathResolver(Store(map["int3" := Int(5), "int2" := Int(7)], []), rt)) ==
            Ok("5-7")
  {
    NamedIntegerPaths(rt);
    DashBetweenPlaceholders(PathResolver(Store(map["int3" := Int(5), "int2" := Int(7)], []), rt));
  }

  /** The cases of testFormatSimpleFormatNullArgument and testFormatSimpleMultiplePointsArgument:
      a name bound to null renders "null", and `#{}` looks up the empty name. */
  lemma NullAndEmptyNameExample(rt: Runtime)
    ensures Render("#{NULL}", PathResolver(Store(map["NULL" := Null], []), rt)) == Ok("null")
    ensures Render("#{}", PathResolver(Store(map["" := Str("A")], []), rt)) == Ok("A")
  {
    var s1 := Store(map["NULL" := Null], []);
    assert s1.named["NULL"] == Null;
    BoundLetterPath("NULL", Null, s1, rt);
    SinglePlaceholder("#{NULL}", "NULL", PathResolver(s1, rt));
    var s2 := Store(map["" := Str("A")], []);
    assert s2.named[""] == Str("A");
    EmptyNamePath(s2, rt);
    SinglePlaceholder("#{}", "", PathResolver(s2, rt));
  }

  /** `#{}` looks up the empty name. */
  lemma EmptyNamePath(store: Store, rt: Runtime)
    ensures ParamValue("", store, rt) ==
              Ok(Substitution(if "" in store.named then Text(store.named[""], rt) else "null", ""))
  {
    assert SplitHead("") == Split("", "");
    assert ParseInt("") == None;
  }

  /** Positional heads: `#{1}` selects the second positional argument, `#{2}` past the end
      of two arguments fails. */
  lemma PositionalExample(rt: Runtime)
    ensures Render("#{1}", PathResolver(Store(map[], [Str("a"), Str("b")]), rt)) == Ok("b")
    ensures Render("#{2}", PathResolver(Store(map[], [Str("a"), Str("b")]), rt)) ==
            Err(InvalidPositionalArgumentValue(2))
  {
    var store := Store(map[], [Str("a"), Str("b")]);
    var resolve := PathResolver(store, rt);
    assert IntText(1) == "1" && IntText(2) == "2";
    PositionalHead(1, store);
    PositionalHead(2, store);
    assert SplitHead("1") == Split("1", "") && SplitHead("2") == Split("2", "");
    assert ParamValue("1", store, rt) == Ok(Substitution("b", ""));
    assert ParamValue("2", store, rt) == Err(InvalidPositionalArgumentValue(2));
    var t1 := "#{1}";
    var t2 := "#{2}";
    assert t1[2..3] == "1" && t2[2..3] == "2";
    assert RenderFrom(t1, 4, resolve) == Ok("");
    RenderPlaceholder(t1, 0, 3, resolve);
    assert "b" + "" == "b";
    RenderPlaceholder(t2, 0, 3, resolve);
  }

  /** testWithGetters and testWithFieldNames: a segment names an accessor, or, failing that,
      its getter. */
  lemma GetterChain(rt: Runtime)
    requires (Obj(0), "name") !in rt.members
    requires (Obj(0), "getName") in rt.members && rt.members[(Obj(0), "getName")] == Returns(Str("A"))
    ensures Chain(Obj(0), "name", rt) == Ok(Resolution(Str("A"), ""))
    ensures Chain(Obj(0), "getName", rt) == Ok(Resolution(Str("A"), ""))
  {
    assert GetterName("name") == "getName";
    assert MemberOrGetter(Obj(0), "name", rt) == Ok(Found(Returns(Str("A"))));
    assert MemberOrGetter(Obj(0), "getName", rt) == Ok(Found(Returns(Str("A"))));
    SingleSegmentChain(Obj(0), "name", rt);
    SingleSegmentChain(Obj(0), "getName", rt);
  }

  /** One turn of the loop in fmt: the character at `i` moves the scanner; free text is
      copied, a path character is collected and a closing brace appends the path's value and
      clears the buffer. The result is the turn of the corrected loop, Scanner.Step followed
      by Scanner.Settle. */
  method FmtTurn(t: string, i: nat, state: State, param: PathBuffer, result: string, store: Store, rt: Runtime)
    returns (r: Result<Config>)
    requires i < |t|
    modifies param
    ensures var c := Config(i, state, old(param.chars), result);
            match Step(t, PathResolver(store, rt), c)
            case Err(e) => r == Err(e)
            case Ok(next) => r == Ok(Settle(next)) && param.chars == Settle(next).param
  {
    ghost var resolve := PathResolver(store, rt);
    ghost var c := Config(i, state, param.chars, result);
    StepByState(t, resolve, c);
    var chr := t[i];
    var next := NextState(state, t, i);
    match next {
      case FreeText =>
        r := Ok(Config(i + 1, next, param.chars, result + [chr]));
      case ParamStart =>
        r := Ok(Config(i + 2, next, param.chars, result));
      case Param =>
        if !ValidParamChar(chr) {
          return Err(InvalidCharacterInParam(chr, i));
        }
        param.Append(chr);
        r := Ok(Config(i + 1, next, param.chars, result));
      case ParamEnd =>
        assert resolve(c.param) == ParamValue(c.param, store, rt);
        var value := AppendParamValue(param, store, rt);
        if value.Err? {
          return Err(value.error);
        }
        param.Clear();
        r := Ok(Config(i + 1, next, param.chars, result + value.value));
      case EscapeChar =>
        r := Ok(Config(i + 1, next, param.chars, result));
    }
  }

  class AlephFormatter {
    const template: string
    var arguments: map<string, Value>
    var posArguments: seq<Value>

    /** str(String): a template with no arguments. */
    constructor Of(template: string)
      ensures this.template == template && arguments == map[] && posArguments == []
    {
      this.template := template;
      arguments := map[];
      posArguments := [];
    }

    /** str(String, Object...): a template whose arguments are positional. */
    constructor OfPositional(template: string, args: seq<Value>)
      ensures this.template == template && arguments == map[] && posArguments == args
    {
      this.template := template;
      arguments := map[];
      posArguments := args;
    }

    /** str(String, Map): a template bound to the entries of a map, which cannot clash. */
    constructor OfNamed(template: string, entries: seq<(string, Value)>)
      requires DistinctNames(entries)
      ensures this.template == template && arguments == EntriesMap(entries) && posArguments == []
    {
      this.template := template;
      BindFreshEntries(map[], entries);
      arguments := map[] + EntriesMap(entries);
      posArguments := [];
      assert map[] + EntriesMap(entries) == EntriesMap(entries);
    }

    /** failIfArgExists: a name already bound, even to null, is refused. */
    method FailIfArgExists(name: string) returns (r: Outcome)
      ensures r.Fail? <==> name in arguments
      ensures r.Fail? ==> r.error == ArgumentAlreadyExists(name)
    {
      if name in arguments {
        return Fail(ArgumentAlreadyExists(name));
      }
      return Pass;
    }

    /** arg: binds one name, unless it is already bound. */
    method Arg(name: string, v: Value) returns (r: Outcome)
      modifies this`arguments
      ensures Bound(arguments, r) == BindEntries(old(arguments), [(name, v)])
    {
      r := FailIfArgExists(name);
      if r.Pass? {
        arguments := arguments[name := v];
      }
    }

    /** args(Map): binds the entries of a map in its iteration order. */
    method ArgsFromMap(entries: seq<(string, Value)>) returns (r: Outcome)
      requires DistinctNames(entries)
      modifies this`arguments
      ensures Bound(arguments, r) == BindEntries(old(arguments), entries)
    {
      var i := 0;
      while i < |entries|
        invariant 0 <= i <= |entries|
        invariant BindEntries(old(arguments), entries) == BindEntries(arguments, entries[i..])
      {
        var (name, v) := entries[i];
        assert entries[i..][0] == entries[i] && entries[i..][1..] == entries[i + 1..];
        r := FailIfArgExists(name);
        if r.Fail? {
          return;
        }
        arguments := arguments[name := v];
        i := i + 1;
      }
      r := Pass;
    }

    /** args(Object...): binds alternating names and values. */
    method ArgsFromPairs(items: seq<Value>) returns (r: Outcome)
      modifies this`arguments
      ensures Bound(arguments, r) == BindPairs(old(arguments), items, 0)
    {
      if |items| % 2 == 1 {
        return Fail(InvalidNumberOfArguments(|items|));
      }
      var i := 0;
      while i < |items|
        invariant 0 <= i <= |items| && i % 2 == 0
        invariant BindPairs(old(arguments), items, 0) == BindPairs(arguments, items, i)
      {
        BindPairsStep(arguments, items, i);
        if !items[i].Str? {
          return Fail(NameNotAString(i));
        }
        var key := items[i].s;
        r := FailIfArgExists(key);
        if r.Fail? {
          return;
        }
        arguments := arguments[key := items[i + 1]];
        i := i + 2;
      }
      r := Pass;
    }

    /** The arguments as the resolver sees them. */
    function Arguments(): Store
      reads this
    {
      Store(arguments, posArguments)
    }

    /** fmt: scans the template once, copying free text, validating and collecting each
        placeholder's path and appending its value. The path buffer is cleared after every
        substitution (see the loop as written, Scanner.RunAsWritten). */
    method Fmt(rt: Runtime) returns (r: Result<string>)
      ensures r == Render(template, PathResolver(Arguments(), rt))
    {
      var t := template;
      var store := Arguments();
      ghost var resolve := PathResolver(store, rt);
      RunMatchesRender(t, resolve);
      var result := "";
      var param := new PathBuffer();
      var state := FreeText;
      var i := 0;
      while i < |t|
        invariant 0 <= i <= |t|
        invariant Run(t, resolve, Start()) == Run(t, resolve, Config(i, state, param.chars, result))
        decreases |t| - i
      {
        UnfoldRun(t, resolve, Config(i, state, param.chars, result));
        var turn := FmtTurn(t, i, state, param, result, store, rt);
        if turn.Err? {
          return Err(turn.error);
        }
        i, state, result := turn.value.i, turn.value.state, turn.value.out;
      }
      return Ok(result);
    }
  }
}
