/** Resolution of a placeholder path (AlephFormatter.appendParamValue, takeUntilDotOrEnd,
    valueInChain and getMethodOrGetter): the head segment selects a positional or a named
    argument, the remaining segments walk no-argument accessors, and every failure of the
    walk is soft. */
module Resolver {
  import opened Errors
  import opened Values

  /** The argument store: a name-to-value map and a positional list. */
  datatype Store = Store(named: map<string, Value>, positional: seq<Value>)

  /** The range of a Java `int`, which `Integer.parseInt` must fit. */
  const MAX_INT: int := 0x7fff_ffff
  const MIN_INT: int := -0x8000_0000

  /** `String.indexOf(char)`: the first index of `c` in `s`, or -1. */
  function IndexOf(s: string, c: char): (r: int)
    ensures r == -1 || 0 <= r < |s|
    ensures r == -1 <==> c !in s
    ensures r >= 0 ==> s[r] == c && c !in s[..r]
  {
    if s == [] then -1
    else if s[0] == c then 0
    else
      var k := IndexOf(s[1..], c);
      assert k >= 0 ==> s[..k + 1] == [s[0]] + s[1..][..k];
      if k == -1 then -1 else k + 1
  }

  datatype Split = Split(head: string, rest: string)

  /** The text before the first '.', and what follows that dot (nothing when there is no dot). */
  function SplitHead(buff: string): (r: Split)
    ensures '.' !in r.head
    ensures '.' in buff ==> buff == r.head + "." + r.rest
    ensures '.' !in buff ==> r.head == buff && r.rest == ""
    ensures buff != "" ==> |r.rest| < |buff|
  {
    var k := IndexOf(buff, '.');
    if k == -1 then Split(buff, "")
    else
      assert buff == buff[..k] + "." + buff[k + 1..];
      Split(buff[..k], buff[k + 1..])
  }

  /** The path buffer that the scanner fills and the resolver consumes from the front. */
  class PathBuffer {
    var chars: string

    constructor ()
      ensures chars == ""
    {
      chars := "";
    }

    method Append(c: char)
      modifies this
      ensures chars == old(chars) + [c]
    {
      chars := chars + [c];
    }

    /** The correction to fmt: the buffer is emptied after each substitution. fmt never resets
        it there, and it is empty afterwards only when the member chain consumed the whole
        path, so what a chain leaves unconsumed would reach the next path. */
    method Clear()
      modifies this
      ensures chars == ""
    {
      chars := "";
    }

    /** takeUntilDotOrEnd: cuts the head segment, and the dot after it, off the buffer. */
    method TakeUntilDotOrEnd() returns (head: string)
      modifies this
      ensures head == SplitHead(old(chars)).head
      ensures chars == SplitHead(old(chars)).rest
    {
      var firstPoint := IndexOf(chars, '.');
      if firstPoint == -1 {
        head := chars;
        chars := "";
      } else {
        head := chars[..firstPoint];
        chars := chars[firstPoint + 1..];
      }
    }
  }

  predicate AllDigits(s: string) {
    forall k :: 0 <= k < |s| ==> IsDigit(s[k])
  }

  predicate HasLetter(s: string) {
    exists k :: 0 <= k < |s| && IsLetter(s[k])
  }

  /** The value of a string of decimal digits. */
  function Unsigned(s: string): nat
    requires AllDigits(s)
  {
    if s == [] then 0 else Unsigned(s[..|s| - 1]) * 10 + (s[|s| - 1] as int - '0' as int)
  }

  /** `Integer.parseInt` over ASCII: an optional sign, at least one digit, and a value in
      the range of an `int`; `None` stands for the NumberFormatException. */
  function ParseInt(s: string): (r: Option<int>)
    ensures r.Some? ==> MIN_INT <= r.value <= MAX_INT
    ensures AllDigits(s) ==> (r.Some? <==> s != "" && Unsigned(s) <= MAX_INT)
    ensures AllDigits(s) && r.Some? ==> r.value == Unsigned(s)
    ensures HasLetter(s) ==> r.None?
  {
    if s != [] && (s[0] == '-' || s[0] == '+') then
      var digits := s[1..];
      if digits != [] && AllDigits(digits) then
        var v: int := if s[0] == '-' then -(Unsigned(digits) as int) else Unsigned(digits);
        if MIN_INT <= v <= MAX_INT then Some(v) else None
      else None
    else if s != [] && AllDigits(s) && Unsigned(s) <= MAX_INT then Some(Unsigned(s))
    else None
  }

  lemma {:induction false} UnsignedOfNatText(n: nat)
    ensures AllDigits(NatText(n)) && Unsigned(NatText(n)) == n
    decreases n
  {
    if n >= 10 {
      UnsignedOfNatText(n / 10);
      var s := NatText(n);
      assert s[..|s| - 1] == NatText(n / 10);
    }
  }

  /** `Integer.parseInt` reads back what `Integer.toString` writes, over the whole `int` range. */
  lemma ParseIntOfIntText(n: int)
    requires MIN_INT <= n <= MAX_INT
    ensures ParseInt(IntText(n)) == Some(n)
  {
    if n < 0 {
      UnsignedOfNatText(-n);
      assert IntText(n)[1..] == NatText(-n);
    } else {
      UnsignedOfNatText(n);
    }
  }

  /** The root value a head selects: a head that parses as an int indexes the positional
      list, any other head is looked up by name, and a missing name gives null. */
  function Root(head: string, store: Store): Result<Value> {
    match ParseInt(head)
    case Some(i) =>
      if 0 <= i < |store.positional| then Ok(store.positional[i])
      else Err(InvalidPositionalArgumentValue(i))
    case None => Ok(if head in store.named then store.named[head] else Null)
  }

  /** A head written as the decimal text of `n` selects positional argument `n`, and fails
      when there is none. */
  lemma PositionalHead(n: int, store: Store)
    requires 0 <= n <= MAX_INT
    ensures Root(IntText(n), store) ==
              if n < |store.positional| then Ok(store.positional[n])
              else Err(InvalidPositionalArgumentValue(n))
  {
    ParseIntOfIntText(n);
  }

  /** A head that cannot be an int (empty, holding a letter, or digits too large for an int)
      is a named lookup that never fails, and yields null for an unbound name. */
  lemma NamedHead(head: string, store: Store)
    requires head == "" || HasLetter(head) || (AllDigits(head) && Unsigned(head) > MAX_INT)
    ensures Root(head, store) == Ok(if head in store.named then store.named[head] else Null)
  {
  }

  /** The getter name tried when no accessor has the segment's own name. */
  function GetterName(name: string): string
    requires name != ""
  {
    "get" + [UpperAscii(name[0])] + name[1..]
  }

  /** ASCII approximation of the upper-casing of one character. */
  function UpperAscii(c: char): char {
    if 'a' <= c <= 'z' then (c as int - 32) as char else c
  }

  datatype Lookup = Found(call: Invocation) | Missing

  /** getMethodOrGetter: the accessor with the segment's exact name, else its getter; an empty
      segment that has no exact accessor fails hard, on the first-character substring. */
  function MemberOrGetter(o: Value, name: string, rt: Runtime): (r: Result<Lookup>)
    ensures (o, name) in rt.members ==> r == Ok(Found(rt.members[(o, name)]))
    ensures r.Err? <==> (o, name) !in rt.members && name == ""
    ensures r.Err? ==> r.error == EmptyMemberName
    ensures r == Ok(Missing) <==>
              (o, name) !in rt.members && name != "" && (o, GetterName(name)) !in rt.members
    ensures (o, name) !in rt.members && name != "" && (o, GetterName(name)) in rt.members ==>
              r == Ok(Found(rt.members[(o, GetterName(name))]))
  {
    if (o, name) in rt.members then Ok(Found(rt.members[(o, name)]))
    else if name == "" then Err(EmptyMemberName)
    else if (o, GetterName(name)) in rt.members then Ok(Found(rt.members[(o, GetterName(name))]))
    else Ok(Missing)
  }

  /** Where a member chain ends: its value and the part of the buffer it did not consume. */
  datatype Resolution = Resolution(value: Value, leftover: string)

  /** valueInChain: applies the buffer's segments one by one as accessors. A null value, a
      missing accessor or a throwing accessor ends the chain with null and leaves the rest of
      the buffer unconsumed; only an empty segment on a non-null value is an error. */
  function Chain(o: Value, buff: string, rt: Runtime): (r: Result<Resolution>)
    ensures r.Err? ==> r.error == EmptyMemberName
    ensures r.Ok? ==> |r.value.leftover| <= |buff| &&
                      r.value.leftover == buff[|buff| - |r.value.leftover|..]
    ensures r.Ok? && r.value.leftover != "" ==> r.value.value == Null
    decreases |buff|
  {
    if o == Null || buff == "" then Ok(Resolution(o, buff))
    else
      var split := SplitHead(buff);
      var found :- MemberOrGetter(o, split.head, rt);
      match found
      case Missing => Ok(Resolution(Null, split.rest))
      case Found(Throws) => Ok(Resolution(Null, split.rest))
      case Found(Returns(v)) => Chain(v, split.rest, rt)
  }

  /** Neither an empty leading segment nor two dots in a row. */
  predicate NoEmptySegment(b: string) {
    (|b| > 0 ==> b[0] != '.') && forall k :: 0 <= k < |b| - 1 ==> !(b[k] == '.' && b[k + 1] == '.')
  }

  lemma RestHasNoEmptySegment(b: string)
    requires b != "" && NoEmptySegment(b)
    ensures NoEmptySegment(SplitHead(b).rest)
  {
    var split := SplitHead(b);
    if '.' in b {
      var h := |split.head|;
      assert b == split.head + "." + split.rest;
      assert h > 0 by { assert b[0] != '.'; }
      forall k | 0 <= k < |split.rest| - 1
        ensures !(split.rest[k] == '.' && split.rest[k + 1] == '.')
      {
        assert split.rest[k] == b[h + 1 + k] && split.rest[k + 1] == b[h + 2 + k];
      }
      if |split.rest| > 0 {
        assert split.rest[0] == b[h + 1] && b[h] == '.';
      }
    }
  }

  /** A member chain with no empty segment never fails: it always resolves, to null at worst. */
  lemma {:induction false} ChainFailsSoftly(o: Value, buff: string, rt: Runtime)
    requires NoEmptySegment(buff)
    ensures Chain(o, buff, rt).Ok?
    decreases |buff|
  {
    if o != Null && buff != "" {
      var split := SplitHead(buff);
      HeadOfNoEmptySegment(buff);
      RestHasNoEmptySegment(buff);
      var found := MemberOrGetter(o, split.head, rt);
      assert found.Ok?;
      match found.value
      case Found(Returns(v)) => ChainFailsSoftly(v, split.rest, rt);
      case _ =>
    }
  }

  lemma HeadOfNoEmptySegment(b: string)
    requires b != "" && NoEmptySegment(b)
    ensures SplitHead(b).head != ""
  {
    var split := SplitHead(b);
    if '.' in b {
      assert b[0] == (split.head + "." + split.rest)[0];
    }
  }

  /** A null root resolves to null whatever follows, consuming nothing. */
  lemma ChainFromNull(buff: string, rt: Runtime)
    ensures Chain(Null, buff, rt) == Ok(Resolution(Null, buff))
  {
  }

  /** A single member segment applied to a non-null value: the accessor's result, or null
      when there is none or it throws. */
  lemma SingleSegmentChain(o: Value, seg: string, rt: Runtime)
    requires o != Null && seg != "" && '.' !in seg
    ensures Chain(o, seg, rt) ==
              match MemberOrGetter(o, seg, rt)
              case Ok(Found(Returns(v))) => Ok(Resolution(v, ""))
              case Ok(_) => Ok(Resolution(Null, ""))
              case Err(e) => Err(e)
  {
    assert SplitHead(seg) == Split(seg, "");
    match MemberOrGetter(o, seg, rt)
    case Ok(Found(Returns(v))) =>
      assert Chain(v, "", rt) == Ok(Resolution(v, ""));
    case _ =>
  }

  /** What one placeholder contributes: its text, and what the chain left in the buffer. */
  datatype Substitution = Substitution(text: string, leftover: string)

  /** appendParamValue: resolve the head, walk the chain if anything follows the head,
      render the value reached. */
  function ParamValue(path: string, store: Store, rt: Runtime): (r: Result<Substitution>)
    ensures r.Err? ==> r.error.InvalidPositionalArgumentValue? || r.error == EmptyMemberName
    ensures '.' !in path && r.Ok? ==> r.value.leftover == ""
  {
    var split := SplitHead(path);
    var root :- Root(split.head, store);
    if split.rest != "" then
      var res :- Chain(root, split.rest, rt);
      Ok(Substitution(Text(res.value, rt), res.leftover))
    else
      Ok(Substitution(Text(root, rt), ""))
  }

  /** A path without a dot renders its root value directly: a bound name's value, "null" for
      an unbound one. */
  lemma SimpleNamedPath(name: string, store: Store, rt: Runtime)
    requires '.' !in name && ParseInt(name).None?
    ensures ParamValue(name, store, rt) ==
              Ok(Substitution(if name in store.named then Text(store.named[name], rt) else "null", ""))
  {
  }

  /** A head followed only by a dot is rendered directly, exactly as the head alone. */
  lemma TrailingDotIgnored(head: string, store: Store, rt: Runtime)
    requires '.' !in head
    ensures ParamValue(head + ".", store, rt) == ParamValue(head, store, rt)
  {
    var b := head + ".";
    assert b[|head|] == '.';
    assert forall j :: 0 <= j < |head| ==> b[j] == head[j];
    var k := IndexOf(b, '.');
    assert k == |head|;
    assert SplitHead(b) == Split(head, "");
  }

  /** A named head followed by a member chain: the chain walks from the head's value. */
  lemma MemberPath(head: string, seg: string, store: Store, rt: Runtime)
    requires '.' !in head && ParseInt(head).None?
    ensures var root := if head in store.named then store.named[head] else Null;
            seg == "" ==> ParamValue(head + "." + seg, store, rt) == Ok(Substitution(Text(root, rt), ""))
    ensures var root := if head in store.named then store.named[head] else Null;
            var res := Chain(root, seg, rt);
            seg != "" && res.Ok? ==>
              ParamValue(head + "." + seg, store, rt) ==
              Ok(Substitution(Text(res.value.value, rt), res.value.leftover))
    ensures var root := if head in store.named then store.named[head] else Null;
            var res := Chain(root, seg, rt);
            seg != "" && res.Err? ==> ParamValue(head + "." + seg, store, rt) == Err(res.error)
  {
    var b := head + "." + seg;
    assert b[|head|] == '.';
    assert forall j :: 0 <= j < |head| ==> b[j] == head[j];
    assert IndexOf(b, '.') == |head|;
    assert b[..|head|] == head && b[|head| + 1..] == seg;
    assert SplitHead(b) == Split(head, seg);
  }

  /** Resolution fails only on an out-of-range positional head, or on an empty member
      segment: a path with no two dots in a row fails only positionally. */
  lemma ParamValueErrors(path: string, store: Store, rt: Runtime)
    requires forall k :: 0 <= k < |path| - 1 ==> !(path[k] == '.' && path[k + 1] == '.')
    ensures ParamValue(path, store, rt).Err? ==>
              ParamValue(path, store, rt).error.InvalidPositionalArgumentValue?
  {
    var split := SplitHead(path);
    if '.' in path && split.rest != "" {
      var h := |split.head|;
      assert path == split.head + "." + split.rest;
      assert split.rest[0] != '.' by { assert path[h] == '.' && path[h + 1] == split.rest[0]; }
      forall k | 0 <= k < |split.rest| - 1
        ensures !(split.rest[k] == '.' && split.rest[k + 1] == '.')
      {
        assert split.rest[k] == path[h + 1 + k] && split.rest[k + 1] == path[h + 2 + k];
      }
      var root := Root(split.head, store);
      if root.Ok? {
        ChainFailsSoftly(root.value, split.rest, rt);
      }
    }
  }

  /** valueInChain, consuming the shared buffer segment by segment across recursive calls. */
  method ValueInChain(o: Value, buff: PathBuffer, rt: Runtime) returns (r: Result<Value>)
    modifies buff
    ensures var c := Chain(o, old(buff.chars), rt);
            (c.Err? ==> r == Err(c.error)) &&
            (c.Ok? ==> r == Ok(c.value.value) && buff.chars == c.value.leftover)
    decreases |buff.chars|
  {
    if o == Null || buff.chars == "" {
      return Ok(o);
    }
    ghost var split := SplitHead(buff.chars);
    ghost var chain := Chain(o, buff.chars, rt);
    var methodName := buff.TakeUntilDotOrEnd();
    var found := MemberOrGetter(o, methodName, rt);
    match found
    case Err(e) =>
      return Err(e);
    case Ok(Missing) =>
      assert chain == Ok(Resolution(Null, split.rest));
      return Ok(Null);
    case Ok(Found(Throws)) =>
      assert chain == Ok(Resolution(Null, split.rest));
      return Ok(Null);
    case Ok(Found(Returns(v))) =>
      assert chain == Chain(v, split.rest, rt);
      r := ValueInChain(v, buff, rt);
  }

  /** appendParamValue: the text to append for the path in the buffer; the buffer keeps
      whatever the chain did not consume. */
  method AppendParamValue(param: PathBuffer, store: Store, rt: Runtime) returns (r: Result<string>)
    modifies param
    ensures var pv := ParamValue(old(param.chars), store, rt);
            (pv.Err? ==> r == Err(pv.error)) &&
            (pv.Ok? ==> r == Ok(pv.value.text) && param.chars == pv.value.leftover)
  {
    var objectName := param.TakeUntilDotOrEnd();
    var objectValue := Root(objectName, store);
    if objectValue.Err? {
      return Err(objectValue.error);
    }
    var toAppend := objectValue.value;
    if param.chars != "" {
      var chained := ValueInChain(objectValue.value, param, rt);
      if chained.Err? {
        return Err(chained.error);
      }
      toAppend := chained.value;
    }
    if toAppend.Arr? {
      var text := ArrayToString(toAppend.elems, rt);
      r := Ok(text);
    } else {
      r := Ok(Natural(toAppend, rt));
    }
  }
}
