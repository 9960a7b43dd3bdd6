/** The one-pass scanner of AlephFormatter.fmt: a five-state machine that copies free text,
    swallows the escape character, collects a placeholder's path and substitutes it at the
    closing bracket. `Step` is one turn of the loop. `RunAsWritten` drives it to the end of
    the template as fmt does: fmt never resets the buffer after a substitution, so the buffer
    is empty afterwards only when the member chain consumed the whole path. `Run` is the
    corrected loop, which empties the buffer after each substitution. `Render` is an independent,
    segment-by-segment reading of the template, and `RunMatchesRender` proves that the
    corrected loop agrees with it. */
module Scanner {
  import opened Errors
  import opened Values
  import opened Resolver

  /** The hard-coded delimiters: `#{path}` is a placeholder, '`' escapes one character. */
  const START: char := '#'
  const OPEN: char := '{'
  const CLOSE: char := '}'
  const ESCAPE: char := '`'

  /** How a placeholder's path becomes text: AlephFormatter.appendParamValue over a given
      argument store and runtime (Resolver.ParamValue). */
  type Resolve = string -> Result<Substitution>

  datatype State = FreeText | Param | ParamStart | ParamEnd | EscapeChar

  predicate IsParamStart(t: string, i: nat)
    requires i < |t|
  {
    t[i] == START && i + 1 < |t| && t[i + 1] == OPEN
  }

  predicate IsParamEnd(t: string, i: nat)
    requires i < |t|
  {
    t[i] == CLOSE
  }

  predicate IsEscapeChar(t: string, i: nat)
    requires i < |t|
  {
    t[i] == ESCAPE
  }

  /** validateParamChar: a placeholder path holds letters, digits and dots only. */
  predicate ValidParamChar(c: char) {
    IsDigit(c) || IsLetter(c) || c == '.'
  }

  /** jumpFromFreeText: an escape character, then `#{`, take precedence over plain text. */
  function JumpFromFreeText(t: string, i: nat): (r: State)
    requires i < |t|
    ensures r == EscapeChar <==> t[i] == ESCAPE
    ensures r == ParamStart <==> t[i] != ESCAPE && IsParamStart(t, i)
    ensures r == FreeText || r == EscapeChar || r == ParamStart
  {
    if IsEscapeChar(t, i) then EscapeChar
    else if IsParamStart(t, i) then ParamStart
    else FreeText
  }

  /** jumpFromParamStart: `}` right after `#{` ends an empty placeholder. */
  function JumpFromParamStart(t: string, i: nat): (r: State)
    requires i < |t|
    ensures r == ParamEnd <==> t[i] == CLOSE
    ensures r == Param || r == ParamEnd
  {
    if IsParamEnd(t, i) then ParamEnd else Param
  }

  /** jumpFromParam: the path runs up to the first `}`. */
  function JumpFromParam(t: string, i: nat): (r: State)
    requires i < |t|
    ensures r == ParamEnd <==> t[i] == CLOSE
    ensures r == Param || r == ParamEnd
  {
    if IsParamEnd(t, i) then ParamEnd else Param
  }

  /** jumpFromParamEnd: after a placeholder, characters are classified as in free text. */
  function JumpFromParamEnd(t: string, i: nat): (r: State)
    requires i < |t|
    ensures r == JumpFromFreeText(t, i)
  {
    if IsEscapeChar(t, i) then EscapeChar
    else if IsParamStart(t, i) then ParamStart
    else FreeText
  }

  /** Outside a placeholder (free text, or just after one), characters are classified alike. */
  predicate Outside(s: State) { s == FreeText || s == ParamEnd }

  predicate Inside(s: State) { s == ParamStart || s == Param }

  /** nextState: the state the character at `i` puts the machine in. */
  function NextState(state: State, t: string, i: nat): (r: State)
    requires i < |t|
    ensures r == EscapeChar <==> Outside(state) && t[i] == ESCAPE
    ensures r == ParamStart <==> Outside(state) && t[i] != ESCAPE && IsParamStart(t, i)
    ensures r == ParamEnd <==> Inside(state) && t[i] == CLOSE
    ensures r == Param <==> Inside(state) && t[i] != CLOSE
    ensures r == FreeText <==>
              state == EscapeChar || (Outside(state) && t[i] != ESCAPE && !IsParamStart(t, i))
  {
    match state
    case FreeText => JumpFromFreeText(t, i)
    case ParamStart => JumpFromParamStart(t, i)
    case Param => JumpFromParam(t, i)
    case ParamEnd => JumpFromParamEnd(t, i)
    case EscapeChar => FreeText
  }

  /** The loop's variables: the index, the state, the path buffer and the output so far. */
  datatype Config = Config(i: nat, state: State, param: string, out: string)

  /** One turn of the loop in fmt, as written: after a substitution the path buffer keeps
      whatever the member chain left unconsumed. */
  function Step(t: string, resolve: Resolve, c: Config): (r: Result<Config>)
    requires c.i < |t|
    ensures r.Ok? ==> c.i < r.value.i <= |t|
    ensures r.Ok? ==> c.out <= r.value.out
  {
    var chr := t[c.i];
    var state := NextState(c.state, t, c.i);
    match state
    case FreeText => Ok(Config(c.i + 1, state, c.param, c.out + [chr]))
    case ParamStart => Ok(Config(c.i + 2, state, c.param, c.out))
    case Param =>
      if ValidParamChar(chr) then Ok(Config(c.i + 1, state, c.param + [chr], c.out))
      else Err(InvalidCharacterInParam(chr, c.i))
    case ParamEnd =>
      var sub :- resolve(c.param);
      Ok(Config(c.i + 1, state, sub.leftover, c.out + sub.text))
    case EscapeChar => Ok(Config(c.i + 1, state, c.param, c.out))
  }

  /** The loop of fmt exactly as written: the buffer is not reset after a substitution, and
      keeps whatever the member chain left unconsumed (nothing when it consumed the whole
      path). The output is only ever appended to. */
  function RunAsWritten(t: string, resolve: Resolve, c: Config): Result<string>
    decreases |t| - c.i
  {
    if c.i >= |t| then Ok(c.out)
    else
      var next :- Step(t, resolve, c);
      RunAsWritten(t, resolve, next)
  }

  /** The correction: after a substitution the path buffer starts afresh. fmt never resets it
      there; it is empty afterwards only when the member chain consumed the whole path. */
  function Settle(c: Config): Config {
    if c.state == ParamEnd then c.(param := "") else c
  }

  /** The corrected loop of fmt: the path buffer is cleared after every substitution. The
      output is only ever appended to. */
  function Run(t: string, resolve: Resolve, c: Config): Result<string>
    decreases |t| - c.i
  {
    if c.i >= |t| then Ok(c.out)
    else
      var next :- Step(t, resolve, c);
      Run(t, resolve, Settle(next))
  }

  /** The loop as written only ever appends to the output. */
  lemma {:induction false} RunAsWrittenExtendsOutput(t: string, resolve: Resolve, c: Config)
    ensures RunAsWritten(t, resolve, c).Ok? ==> c.out <= RunAsWritten(t, resolve, c).value
    decreases |t| - c.i
  {
    if c.i < |t| && Step(t, resolve, c).Ok? {
      RunAsWrittenExtendsOutput(t, resolve, Step(t, resolve, c).value);
    }
  }

  /** The corrected loop only ever appends to the output. */
  lemma {:induction false} RunExtendsOutput(t: string, resolve: Resolve, c: Config)
    ensures Run(t, resolve, c).Ok? ==> c.out <= Run(t, resolve, c).value
    decreases |t| - c.i
  {
    if c.i < |t| && Step(t, resolve, c).Ok? {
      RunExtendsOutput(t, resolve, Settle(Step(t, resolve, c).value));
    }
  }

  /** One turn of the corrected loop. */
  lemma UnfoldRun(t: string, resolve: Resolve, c: Config)
    requires c.i < |t|
    ensures Step(t, resolve, c).Err? ==> Run(t, resolve, c) == Err(Step(t, resolve, c).error)
    ensures Step(t, resolve, c).Ok? ==> Run(t, resolve, c) == Run(t, resolve, Settle(Step(t, resolve, c).value))
  {
  }

  /** One turn of the loop, case by case on the state the character leads to. */
  lemma StepByState(t: string, resolve: Resolve, c: Config)
    requires c.i < |t|
    ensures NextState(c.state, t, c.i) == FreeText ==>
              Step(t, resolve, c) == Ok(Config(c.i + 1, FreeText, c.param, c.out + [t[c.i]]))
    ensures NextState(c.state, t, c.i) == ParamStart ==>
              Step(t, resolve, c) == Ok(Config(c.i + 2, ParamStart, c.param, c.out))
    ensures NextState(c.state, t, c.i) == Param && ValidParamChar(t[c.i]) ==>
              Step(t, resolve, c) == Ok(Config(c.i + 1, Param, c.param + [t[c.i]], c.out))
    ensures NextState(c.state, t, c.i) == Param && !ValidParamChar(t[c.i]) ==>
              Step(t, resolve, c) == Err(InvalidCharacterInParam(t[c.i], c.i))
    ensures NextState(c.state, t, c.i) == ParamEnd && resolve(c.param).Err? ==>
              Step(t, resolve, c) == Err(resolve(c.param).error)
    ensures NextState(c.state, t, c.i) == ParamEnd && resolve(c.param).Ok? ==>
              Step(t, resolve, c) ==
                Ok(Config(c.i + 1, ParamEnd, resolve(c.param).value.leftover, c.out + resolve(c.param).value.text))
    ensures NextState(c.state, t, c.i) == EscapeChar ==>
              Step(t, resolve, c) == Ok(Config(c.i + 1, EscapeChar, c.param, c.out))
  {
  }

  function Start(): Config { Config(0, FreeText, "", "") }

  // ---------------------------------------------------------------------------------
  // The reference reading of a template, segment by segment.

  /** The first closing bracket at or after `i`, or the end of the template. */
  function CloseFrom(t: string, i: nat): (j: nat)
    requires i <= |t|
    ensures i <= j <= |t|
    ensures j < |t| ==> t[j] == CLOSE
    ensures forall k :: i <= k < j ==> t[k] != CLOSE
    decreases |t| - i
  {
    if i == |t| then i else if t[i] == CLOSE then i else CloseFrom(t, i + 1)
  }

  /** The first index in [i, j) holding a character a path may not contain. */
  function FirstInvalid(t: string, i: nat, j: nat): (r: Option<nat>)
    requires i <= j <= |t|
    ensures r.Some? ==> i <= r.value < j && !ValidParamChar(t[r.value])
    ensures r.Some? ==> forall k :: i <= k < r.value ==> ValidParamChar(t[k])
    ensures r.None? ==> forall k :: i <= k < j ==> ValidParamChar(t[k])
    decreases j - i
  {
    if i == j then None
    else if !ValidParamChar(t[i]) then Some(i)
    else FirstInvalid(t, i + 1, j)
  }

  /** Text `s` in front of a rendering, errors passing through. */
  function Prefix(s: string, r: Result<string>): Result<string> {
    match r
    case Ok(x) => Ok(s + x)
    case Err(e) => Err(e)
  }

  /** The rendering of `t` from index `i`, read as free text: an escape character stands for
      the character after it; `#{` opens a placeholder that runs to the first `}` and is
      replaced by its value; a placeholder never closed contributes nothing; every other
      character stands for itself. */
  function RenderFrom(t: string, i: nat, resolve: Resolve): Result<string>
    requires i <= |t|
    decreases |t| - i
  {
    if i == |t| then Ok("")
    else if t[i] == ESCAPE then
      if i + 1 < |t| then Prefix([t[i + 1]], RenderFrom(t, i + 2, resolve)) else Ok("")
    else if IsParamStart(t, i) then
      var j := CloseFrom(t, i + 2);
      match FirstInvalid(t, i + 2, j)
      case Some(k) => Err(InvalidCharacterInParam(t[k], k))
      case None =>
        if j == |t| then Ok("")
        else
          var sub :- resolve(t[i + 2..j]);
          Prefix(sub.text, RenderFrom(t, j + 1, resolve))
    else Prefix([t[i]], RenderFrom(t, i + 1, resolve))
  }

  function Render(t: string, resolve: Resolve): Result<string> {
    RenderFrom(t, 0, resolve)
  }

  // ---------------------------------------------------------------------------------
  // The state machine agrees with the reference reading.

  /** One turn from a state inside a placeholder: a closing bracket substitutes the path
      collected so far; any other character is validated and collected. */
  lemma StepInside(t: string, resolve: Resolve, c: Config)
    requires c.i < |t| && Inside(c.state)
    ensures Step(t, resolve, c) ==
              if t[c.i] == CLOSE then
                match resolve(c.param)
                case Err(e) => Err(e)
                case Ok(sub) => Ok(Config(c.i + 1, ParamEnd, sub.leftover, c.out + sub.text))
              else if ValidParamChar(t[c.i]) then Ok(Config(c.i + 1, Param, c.param + [t[c.i]], c.out))
              else Err(InvalidCharacterInParam(t[c.i], c.i))
  {
  }

  /** One turn from a state outside a placeholder. */
  lemma StepOutside(t: string, resolve: Resolve, c: Config)
    requires c.i < |t| && Outside(c.state)
    ensures Step(t, resolve, c) ==
              if t[c.i] == ESCAPE then Ok(Config(c.i + 1, EscapeChar, c.param, c.out))
              else if IsParamStart(t, c.i) then Ok(Config(c.i + 2, ParamStart, c.param, c.out))
              else Ok(Config(c.i + 1, FreeText, c.param, c.out + [t[c.i]]))
  {
  }

  /** The remainder of a run once the scanner has reached index `i` of a placeholder whose
      path starts at `b`. */
  function FinishPlaceholder(t: string, resolve: Resolve, b: nat, i: nat, out: string): Result<string>
    requires b <= i <= |t|
  {
    var j := CloseFrom(t, i);
    match FirstInvalid(t, i, j)
    case Some(k) => Err(InvalidCharacterInParam(t[k], k))
    case None =>
      if j == |t| then Ok(out)
      else match resolve(t[b..j])
        case Err(e) => Err(e)
        case Ok(sub) => Run(t, resolve, Config(j + 1, ParamEnd, "", out + sub.text))
  }

  /** Inside a placeholder whose path so far is t[b..i], the machine validates every
      character up to the first closing bracket, then substitutes the whole path. */
  lemma {:induction false} RunInsidePlaceholder(t: string, resolve: Resolve,
                                               b: nat, i: nat, state: State, out: string)
    requires b <= i <= |t| && Inside(state)
    ensures Run(t, resolve, Config(i, state, t[b..i], out)) == FinishPlaceholder(t, resolve, b, i, out)
    decreases |t| - i
  {
    if i < |t| {
      if t[i] == CLOSE {
        RunAtClose(t, resolve, b, i, state, out);
      } else if ValidParamChar(t[i]) {
        RunCollects(t, resolve, b, i, state, out);
        RunInsidePlaceholder(t, resolve, b, i + 1, Param, out);
        FinishPlaceholderUnchanged(t, resolve, b, i, out);
      } else {
        RunAtInvalid(t, resolve, b, i, state, out);
      }
    }
  }

  lemma RunCollects(t: string, resolve: Resolve, b: nat, i: nat, state: State, out: string)
    requires b <= i < |t| && Inside(state) && t[i] != CLOSE && ValidParamChar(t[i])
    ensures Run(t, resolve, Config(i, state, t[b..i], out)) == Run(t, resolve, Config(i + 1, Param, t[b..i + 1], out))
  {
    var c := Config(i, state, t[b..i], out);
    StepInside(t, resolve, c);
    assert t[b..i] + [t[i]] == t[b..i + 1];
    assert Step(t, resolve, c) == Ok(Config(i + 1, Param, t[b..i + 1], out));
    UnfoldRun(t, resolve, c);
  }

  lemma RunAtInvalid(t: string, resolve: Resolve, b: nat, i: nat, state: State, out: string)
    requires b <= i < |t| && Inside(state) && t[i] != CLOSE && !ValidParamChar(t[i])
    ensures Run(t, resolve, Config(i, state, t[b..i], out)) == FinishPlaceholder(t, resolve, b, i, out)
  {
    var c := Config(i, state, t[b..i], out);
    StepInside(t, resolve, c);
    UnfoldRun(t, resolve, c);
    assert FirstInvalid(t, i, CloseFrom(t, i)) == Some(i);
  }

  lemma RunAtClose(t: string, resolve: Resolve, b: nat, i: nat, state: State, out: string)
    requires b <= i < |t| && Inside(state) && t[i] == CLOSE
    ensures Run(t, resolve, Config(i, state, t[b..i], out)) == FinishPlaceholder(t, resolve, b, i, out)
  {
    var c := Config(i, state, t[b..i], out);
    assert CloseFrom(t, i) == i;
    assert FirstInvalid(t, i, i).None?;
    var pv := resolve(t[b..i]);
    assert NextState(state, t, i) == ParamEnd;
    if pv.Ok? {
      var next := Config(i + 1, ParamEnd, pv.value.leftover, out + pv.value.text);
      var settled := Config(i + 1, ParamEnd, "", out + pv.value.text);
      assert Step(t, resolve, c) == Ok(next);
      assert Settle(next) == settled;
      assert Run(t, resolve, c) == Run(t, resolve, settled);
      assert FinishPlaceholder(t, resolve, b, i, out) == Run(t, resolve, settled);
    } else {
      assert Step(t, resolve, c) == Err(pv.error);
      assert Run(t, resolve, c) == Err(pv.error);
      assert FinishPlaceholder(t, resolve, b, i, out) == Err(pv.error);
    }
  }

  lemma FinishPlaceholderUnchanged(t: string, resolve: Resolve, b: nat, i: nat, out: string)
    requires b <= i < |t| && t[i] != CLOSE && ValidParamChar(t[i])
    ensures FinishPlaceholder(t, resolve, b, i, out) == FinishPlaceholder(t, resolve, b, i + 1, out)
  {
    FinishPlaceholderAdvance(t, b, i);
  }

  lemma FinishPlaceholderAdvance(t: string, b: nat, i: nat)
    requires b <= i < |t| && t[i] != CLOSE && ValidParamChar(t[i])
    ensures CloseFrom(t, i) == CloseFrom(t, i + 1)
    ensures FirstInvalid(t, i, CloseFrom(t, i)) == FirstInvalid(t, i + 1, CloseFrom(t, i))
  {
  }

  /** Outside a placeholder, with an empty path buffer, the corrected loop produces exactly the
      reference rendering of the rest of the template after what it has output so far. */
  lemma {:induction false} RunOutside(t: string, resolve: Resolve, i: nat, state: State, out: string)
    requires i <= |t| && Outside(state)
    ensures Run(t, resolve, Config(i, state, "", out)) == Prefix(out, RenderFrom(t, i, resolve))
    decreases |t| - i
  {
    var c := Config(i, state, "", out);
    if i == |t| {
      assert out + "" == out;
    } else {
      StepOutside(t, resolve, c);
      if t[i] == ESCAPE {
        RunAfterEscape(t, resolve, i, out);
      } else if IsParamStart(t, i) {
        RunPlaceholder(t, resolve, i, out);
      } else {
        RunOutside(t, resolve, i + 1, FreeText, out + [t[i]]);
        PrefixPrefix(out, [t[i]], RenderFrom(t, i + 1, resolve));
      }
    }
  }

  lemma {:induction false} RunAfterEscape(t: string, resolve: Resolve, i: nat, out: string)
    requires i < |t| && t[i] == ESCAPE
    ensures Run(t, resolve, Config(i + 1, EscapeChar, "", out)) == Prefix(out, RenderFrom(t, i, resolve))
    decreases |t| - i, 0
  {
    var e := Config(i + 1, EscapeChar, "", out);
    if i + 1 < |t| {
      assert Step(t, resolve, e) == Ok(Config(i + 2, FreeText, "", out + [t[i + 1]]));
      RunOutside(t, resolve, i + 2, FreeText, out + [t[i + 1]]);
      PrefixPrefix(out, [t[i + 1]], RenderFrom(t, i + 2, resolve));
    } else {
      assert out + "" == out;
    }
  }

  lemma {:induction false} RunPlaceholder(t: string, resolve: Resolve, i: nat, out: string)
    requires i < |t| && t[i] != ESCAPE && IsParamStart(t, i)
    ensures Run(t, resolve, Config(i + 2, ParamStart, "", out)) == Prefix(out, RenderFrom(t, i, resolve))
    decreases |t| - i, 0
  {
    assert t[i + 2..i + 2] == "";
    RunInsidePlaceholder(t, resolve, i + 2, i + 2, ParamStart, out);
    var j := CloseFrom(t, i + 2);
    match FirstInvalid(t, i + 2, j)
    case Some(k) =>
      assert RenderFrom(t, i, resolve) == Err(InvalidCharacterInParam(t[k], k));
    case None =>
      if j == |t| {
        assert RenderFrom(t, i, resolve) == Ok("");
        assert out + "" == out;
      } else {
        var pv := resolve(t[i + 2..j]);
        if pv.Ok? {
          assert RenderFrom(t, i, resolve) == Prefix(pv.value.text, RenderFrom(t, j + 1, resolve));
          RunOutside(t, resolve, j + 1, ParamEnd, out + pv.value.text);
          PrefixPrefix(out, pv.value.text, RenderFrom(t, j + 1, resolve));
        } else {
          assert RenderFrom(t, i, resolve) == Err(pv.error);
        }
      }
  }

  lemma PrefixPrefix(a: string, b: string, r: Result<string>)
    ensures Prefix(a, Prefix(b, r)) == Prefix(a + b, r)
  {
    if r.Ok? {
      assert a + (b + r.value) == (a + b) + r.value;
    }
  }

  /** The corrected loop, started in free text at index 0, renders what the reference reading
      says, error for error. */
  lemma RunMatchesRender(t: string, resolve: Resolve)
    ensures Run(t, resolve, Start()) == Render(t, resolve)
  {
    RunOutside(t, resolve, 0, FreeText, "");
    var r := RenderFrom(t, 0, resolve);
    if r.Ok? {
      assert "" + r.value == r.value;
    }
  }

  // ---------------------------------------------------------------------------------
  // Properties of the rendering.

  /** No escape character, and no '#' immediately followed by '{'. */
  predicate NoMarkup(t: string) {
    forall k :: 0 <= k < |t| ==> t[k] != ESCAPE && !IsParamStart(t, k)
  }

  lemma {:induction false} RenderFromVerbatim(t: string, i: nat, resolve: Resolve)
    requires i <= |t| && NoMarkup(t)
    ensures RenderFrom(t, i, resolve) == Ok(t[i..])
    decreases |t| - i
  {
    if i < |t| {
      assert t[i] != ESCAPE && !IsParamStart(t, i);
      RenderFromVerbatim(t, i + 1, resolve);
      assert t[i..] == [t[i]] + t[i + 1..];
    }
  }

  /** A template without markup renders to itself, character for character. */
  lemma RenderVerbatim(t: string, resolve: Resolve)
    requires NoMarkup(t)
    ensures Render(t, resolve) == Ok(t)
  {
    RenderFromVerbatim(t, 0, resolve);
  }

  /** The machine never emits an escape character it reads in free text: it emits the
      character after it instead, read literally, and nothing when the escape is last. */
  lemma EscapeMakesNextLiteral(t: string, i: nat, state: State, out: string, resolve: Resolve)
    requires i < |t| && Outside(state) && t[i] == ESCAPE
    ensures i + 1 == |t| ==> Run(t, resolve, Config(i, state, "", out)) == Ok(out)
    ensures i + 1 < |t| ==>
              Run(t, resolve, Config(i, state, "", out)) ==
              Run(t, resolve, Config(i + 2, FreeText, "", out + [t[i + 1]]))
  {
    StepOutside(t, resolve, Config(i, state, "", out));
    if i + 1 < |t| {
      assert Step(t, resolve, Config(i + 1, EscapeChar, "", out)) ==
             Ok(Config(i + 2, FreeText, "", out + [t[i + 1]]));
    }
  }

  /** A resolver that reports no character errors of its own (they are the scanner's). */
  ghost predicate NoCharacterErrors(resolve: Resolve) {
    forall p :: resolve(p).Err? ==> !resolve(p).error.InvalidCharacterInParam?
  }

  /** The placeholder opened at `o` is still open at index `k`. */
  predicate OpenAt(t: string, o: nat, k: nat) {
    o + 2 <= k < |t| && IsParamStart(t, o) && CloseFrom(t, o + 2) > k
  }

  /** An invalid-character error names a character of the template, at its own index,
      inside an open placeholder, and one that a path may not contain. */
  lemma {:induction false} RenderErrorLocated(t: string, i: nat, resolve: Resolve)
    requires i <= |t| && NoCharacterErrors(resolve)
    ensures var r := RenderFrom(t, i, resolve);
            r.Err? && r.error.InvalidCharacterInParam? ==>
              i <= r.error.index < |t| && t[r.error.index] == r.error.c &&
              !ValidParamChar(r.error.c) && exists o :: i <= o && OpenAt(t, o, r.error.index)
    decreases |t| - i
  {
    if i < |t| {
      if t[i] == ESCAPE {
        if i + 1 < |t| {
          RenderErrorLocated(t, i + 2, resolve);
        }
      } else if IsParamStart(t, i) {
        var j := CloseFrom(t, i + 2);
        match FirstInvalid(t, i + 2, j)
        case Some(k) =>
          assert OpenAt(t, i, k);
        case None =>
          if j < |t| {
            RenderErrorLocated(t, j + 1, resolve);
          }
      } else {
        RenderErrorLocated(t, i + 1, resolve);
      }
    }
  }

  /** A well-formed placeholder from `i` to the bracket at `j` is replaced by the value
      of the path between them. */
  lemma RenderPlaceholder(t: string, i: nat, j: nat, resolve: Resolve)
    requires i + 2 <= j < |t| && IsParamStart(t, i) && t[j] == CLOSE
    requires forall k :: i + 2 <= k < j ==> t[k] != CLOSE && ValidParamChar(t[k])
    ensures resolve(t[i + 2..j]).Err? ==> RenderFrom(t, i, resolve) == Err(resolve(t[i + 2..j]).error)
    ensures resolve(t[i + 2..j]).Ok? ==>
              RenderFrom(t, i, resolve) ==
              Prefix(resolve(t[i + 2..j]).value.text, RenderFrom(t, j + 1, resolve))
  {
    assert CloseFrom(t, i + 2) == j;
    assert FirstInvalid(t, i + 2, j) == None;
  }

  /** A stretch holding neither an escape character nor a '#' is copied as it stands. */
  lemma {:induction false} RenderLiteralRun(t: string, i: nat, j: nat, resolve: Resolve)
    requires i <= j <= |t|
    requires forall k :: i <= k < j ==> t[k] != ESCAPE && t[k] != START
    ensures RenderFrom(t, i, resolve) == Prefix(t[i..j], RenderFrom(t, j, resolve))
    decreases j - i
  {
    if i < j {
      RenderLiteralRun(t, i + 1, j, resolve);
      assert t[i..j] == [t[i]] + t[i + 1..j];
      match RenderFrom(t, j, resolve)
      case Ok(x) =>
        assert [t[i]] + (t[i + 1..j] + x) == t[i..j] + x;
      case Err(_) =>
    } else {
      match RenderFrom(t, j, resolve)
      case Ok(x) =>
        assert t[i..j] + x == x;
      case Err(_) =>
    }
  }

  /** The case of testEscape: an escaped start leaves the placeholder unread, the next one
      is substituted. */
  lemma EscapedPlaceholderIsLiteral(resolve: Resolve)
    requires resolve("q").Ok?
    ensures Render("`#{q},#{q}", resolve) == Ok("#{q}," + resolve("q").value.text)
  {
    var t := "`#{q},#{q}";
    var x := resolve("q").value.text;
    assert t[8..9] == "q";
    RenderPlaceholder(t, 6, 9, resolve);
    assert RenderFrom(t, 10, resolve) == Ok("");
    assert x + "" == x;
    RenderLiteralRun(t, 2, 6, resolve);
    assert t[2..6] == "{q},";
    assert [t[1]] + ("{q}," + x) == "#{q}," + x;
  }

  /** The case of testDoubleEscape: an escaped escape is one literal escape character. */
  lemma EscapedEscapeIsLiteral(resolve: Resolve)
    requires resolve("q").Ok?
    ensures Render("``#{q},#{q}", resolve) ==
              Ok("`" + resolve("q").value.text + "," + resolve("q").value.text)
  {
    var t := "``#{q},#{q}";
    var x := resolve("q").value.text;
    assert t[9..10] == "q" && t[4..5] == "q";
    assert RenderFrom(t, 11, resolve) == Ok("");
    RenderPlaceholder(t, 7, 10, resolve);
    assert RenderFrom(t, 7, resolve) == Ok(x + "");
    assert x + "" == x;
    RenderLiteralRun(t, 6, 7, resolve);
    assert t[6..7] == ",";
    assert RenderFrom(t, 6, resolve) == Ok("," + x);
    RenderPlaceholder(t, 2, 5, resolve);
    assert RenderFrom(t, 2, resolve) == Ok(x + ("," + x));
    assert t[0] == ESCAPE && t[1] == ESCAPE;
    assert RenderFrom(t, 0, resolve) == Ok([t[1]] + (x + ("," + x)));
    assert [t[1]] + (x + ("," + x)) == "`" + x + "," + x;
  }

  /** The case of testEscapeLastCharInTemplate: a trailing escape emits nothing. */
  lemma TrailingEscapeEmitsNothing(resolve: Resolve)
    requires resolve("q").Ok?
    ensures Render("#{q}`", resolve) == Ok(resolve("q").value.text)
  {
    var t := "#{q}`";
    var x := resolve("q").value.text;
    assert t[2..3] == "q";
    assert RenderFrom(t, 4, resolve) == Ok("");
    RenderPlaceholder(t, 0, 3, resolve);
    assert x + "" == x;
  }

  /** Adjacent placeholders are both substituted. */
  lemma AdjacentPlaceholders(resolve: Resolve)
    requires resolve("a").Ok? && resolve("b").Ok?
    ensures Render("#{a}#{b}", resolve) == Ok(resolve("a").value.text + resolve("b").value.text)
  {
    var t := "#{a}#{b}";
    var y := resolve("b").value.text;
    assert t[2..3] == "a" && t[6..7] == "b";
    assert RenderFrom(t, 8, resolve) == Ok("");
    RenderPlaceholder(t, 4, 7, resolve);
    assert y + "" == y;
    RenderPlaceholder(t, 0, 3, resolve);
  }

  /** A `#` that ends the template, reached outside a placeholder, is copied as it stands:
      there is no `{` after it to open a placeholder. */
  lemma FinalHashIsLiteral(t: string, state: State, param: string, out: string, resolve: Resolve)
    requires |t| > 0 && t[|t| - 1] == START && Outside(state)
    ensures Run(t, resolve, Config(|t| - 1, state, param, out)) == Ok(out + [START])
    ensures RunAsWritten(t, resolve, Config(|t| - 1, state, param, out)) == Ok(out + [START])
    ensures RenderFrom(t, |t| - 1, resolve) == Ok([START])
  {
    var c := Config(|t| - 1, state, param, out);
    var n := Config(|t|, FreeText, param, out + [START]);
    FinalHashStep(t, resolve, c);
    UnfoldRun(t, resolve, c);
    assert Settle(n) == n;
    assert Run(t, resolve, n) == Ok(n.out);
    assert RunAsWritten(t, resolve, n) == Ok(n.out);
    assert t[|t| - 1] != ESCAPE && !IsParamStart(t, |t| - 1);
    assert RenderFrom(t, |t|, resolve) == Ok("");
    assert [START] + "" == [START];
  }

  lemma FinalHashStep(t: string, resolve: Resolve, c: Config)
    requires c.i == |t| - 1 && t[c.i] == START && Outside(c.state)
    ensures Step(t, resolve, c) == Ok(Config(|t|, FreeText, c.param, c.out + [START]))
  {
    assert !IsParamStart(t, c.i);
    assert NextState(c.state, t, c.i) == FreeText;
  }

  /** Plain text followed by a `#` renders to itself, whatever the text. */
  lemma TrailingHashAfterText(t: string, resolve: Resolve)
    requires NoMarkup(t)
    ensures Render(t + [START], resolve) == Ok(t + [START])
  {
    var u := t + [START];
    forall k | 0 <= k < |u| ensures u[k] != ESCAPE && !IsParamStart(u, k) {
      if k < |t| {
        assert u[k] == t[k];
        if k + 1 < |t| {
          assert u[k + 1] == t[k + 1];
          assert !IsParamStart(t, k);
        } else {
          assert u[k + 1] == START;
        }
      }
    }
    RenderVerbatim(u, resolve);
  }

  /** A trailing '#' is literal, and a placeholder never closed adds nothing. */
  lemma DanglingMarkup(resolve: Resolve)
    ensures Render("x#", resolve) == Ok("x#")
    ensures Render("x#{ab", resolve) == Ok("x")
  {
    var u := "x#";
    assert RenderFrom(u, 2, resolve) == Ok("");
    assert [u[1]] + "" == "#";
    assert RenderFrom(u, 1, resolve) == Ok("#");
    assert [u[0]] + "#" == u;
    var t := "x#{ab";
    assert CloseFrom(t, 3) == 5;
    assert FirstInvalid(t, 3, 5) == None;
    assert RenderFrom(t, 1, resolve) == Ok("");
    assert [t[0]] + "" == "x";
  }

  /** The cases of testWithInvalidParam, testEscapeInParamName and a space in a path. */
  lemma InvalidCharacters(resolve: Resolve)
    ensures Render("#{#{}} #{a}", resolve) == Err(InvalidCharacterInParam('#', 2))
    ensures Render("#{`q}#{q`}", resolve) == Err(InvalidCharacterInParam('`', 2))
    ensures Render("#{a b}", resolve) == Err(InvalidCharacterInParam(' ', 3))
  {
  }

  // ---------------------------------------------------------------------------------
  // The loop as written against the loop with the buffer cleared.

  /** A resolver that consumes the whole of every path without a dot. */
  ghost predicate ConsumesDotless(resolve: Resolve) {
    forall p :: '.' !in p && resolve(p).Ok? ==> resolve(p).value.leftover == ""
  }

  /** Without any '.', no member chain can stop early, and the loop as written behaves
      exactly as the loop that clears its buffer. */
  lemma {:induction false} AsWrittenAgreesWithoutDots(t: string, resolve: Resolve, c: Config)
    requires '.' !in t && '.' !in c.param && ConsumesDotless(resolve)
    ensures RunAsWritten(t, resolve, c) == Run(t, resolve, c)
    decreases |t| - c.i
  {
    if c.i < |t| {
      var r := Step(t, resolve, c);
      if r.Ok? {
        var next := r.value;
        assert '.' !in next.param by {
          assert t[c.i] != '.';
          if NextState(c.state, t, c.i) == ParamEnd {
            assert next.param == resolve(c.param).value.leftover;
          }
        }
        assert Settle(next) == next;
        AsWrittenAgreesWithoutDots(t, resolve, next);
      }
    }
  }

  /** The two readings of `#{a.b}#{c}` when the first path leaves "b" unconsumed: as written
      the rest is prepended to the second path and looked up as "bc". */
  lemma LeftoverTraceAsWritten(resolve: Resolve)
    requires resolve("a.b") == Ok(Substitution("null", "b"))
    requires resolve("bc") == Ok(Substitution("null", ""))
    ensures RunAsWritten("#{a.b}#{c}", resolve, Start()) == Ok("nullnull")
  {
    var t := "#{a.b}#{c}";
    var r := Ok("nullnull");
    LeftoverTraceSecondPath(resolve);
    assert "" + "null" == "null" && "a." + [t[4]] == "a.b";
    assert RunAsWritten(t, resolve, Config(5, Param, "a.b", "")) == r;
    assert "a" + [t[3]] == "a.";
    assert RunAsWritten(t, resolve, Config(4, Param, "a.", "")) == r;
    assert "" + [t[2]] == "a";
    assert RunAsWritten(t, resolve, Config(3, Param, "a", "")) == r;
    assert RunAsWritten(t, resolve, Config(2, ParamStart, "", "")) == r;
  }

  /** As written, the second placeholder of `#{a.b}#{c}` starts with "b" in the buffer. */
  lemma LeftoverTraceSecondPath(resolve: Resolve)
    requires resolve("bc") == Ok(Substitution("null", ""))
    ensures RunAsWritten("#{a.b}#{c}", resolve, Config(6, ParamEnd, "b", "null")) == Ok("nullnull")
  {
    var t := "#{a.b}#{c}";
    var r := Ok("nullnull");
    assert "b" + [t[8]] == "bc" && "null" + "null" == "nullnull";
    assert RunAsWritten(t, resolve, Config(9, Param, "bc", "null")) == r;
    assert RunAsWritten(t, resolve, Config(8, ParamStart, "b", "null")) == r;
  }

  /** Corrected, each path of `#{a.b}#{c}` stands alone. */
  lemma LeftoverTraceCorrected(resolve: Resolve)
    requires resolve("a.b") == Ok(Substitution("null", "b"))
    requires resolve("c") == Ok(Substitution("C", ""))
    ensures Render("#{a.b}#{c}", resolve) == Ok("nullC")
  {
    var t := "#{a.b}#{c}";
    assert t[2..5] == "a.b" && t[8..9] == "c";
    RenderPlaceholder(t, 6, 9, resolve);
    assert RenderFrom(t, 10, resolve) == Ok("");
    assert "C" + "" == "C" && "null" + "C" == "nullC";
    RenderPlaceholder(t, 0, 5, resolve);
  }

  predicate PlainName(name: string) {
    forall k :: 0 <= k < |name| ==> name[k] != CLOSE && ValidParamChar(name[k])
  }

  predicate PlainText(s: string) {
    forall k :: 0 <= k < |s| ==> s[k] != ESCAPE && s[k] != START
  }

  /** Two placeholders with plain text between them render as the two values around that
      text. */
  lemma PlaceholdersAroundText(t: string, x: string, mid: string, y: string, resolve: Resolve)
    requires t == "#{" + x + "}" + mid + "#{" + y + "}"
    requires PlainName(x) && PlainName(y) && PlainText(mid)
    requires resolve(x).Ok? && resolve(y).Ok?
    ensures Render(t, resolve) == Ok(resolve(x).value.text + mid + resolve(y).value.text)
  {
    PlaceholdersAroundTextLayout(t, x, mid, y);
    var e1 := |x| + 2;
    var s2 := e1 + 1 + |mid|;
    RenderTwoPlaceholders(t, e1, s2, |t| - 1, resolve);
  }

  lemma RenderTwoPlaceholders(t: string, e1: nat, s2: nat, e2: nat, resolve: Resolve)
    requires 2 <= e1 < s2 && s2 + 2 <= e2 == |t| - 1
    requires IsParamStart(t, 0) && IsParamStart(t, s2) && t[e1] == CLOSE && t[e2] == CLOSE
    requires forall k :: 2 <= k < e1 ==> t[k] != CLOSE && ValidParamChar(t[k])
    requires forall k :: s2 + 2 <= k < e2 ==> t[k] != CLOSE && ValidParamChar(t[k])
    requires forall k :: e1 + 1 <= k < s2 ==> t[k] != ESCAPE && t[k] != START
    requires resolve(t[2..e1]).Ok? && resolve(t[s2 + 2..e2]).Ok?
    ensures Render(t, resolve) ==
            Ok(resolve(t[2..e1]).value.text + t[e1 + 1..s2] + resolve(t[s2 + 2..e2]).value.text)
  {
    var tx := resolve(t[2..e1]).value.text;
    var ty := resolve(t[s2 + 2..e2]).value.text;
    var mid := t[e1 + 1..s2];
    assert RenderFrom(t, e2 + 1, resolve) == Ok("");
    RenderPlaceholder(t, s2, e2, resolve);
    assert ty + "" == ty;
    RenderLiteralRun(t, e1 + 1, s2, resolve);
    assert RenderFrom(t, e1 + 1, resolve) == Ok(mid + ty);
    RenderPlaceholder(t, 0, e1, resolve);
    assert tx + (mid + ty) == tx + mid + ty;
  }

  lemma PlaceholdersAroundTextLayout(t: string, x: string, mid: string, y: string)
    requires t == "#{" + x + "}" + mid + "#{" + y + "}"
    requires PlainName(x) && PlainName(y) && PlainText(mid)
    ensures var e1 := |x| + 2; var s2 := e1 + 1 + |mid|; var e2 := s2 + 2 + |y|;
            e2 == |t| - 1 && t[e1] == CLOSE && t[e2] == CLOSE && IsParamStart(t, 0) && IsParamStart(t, s2) &&
            t[2..e1] == x && t[e1 + 1..s2] == mid && t[s2 + 2..e2] == y &&
            (forall k :: 2 <= k < e1 ==> t[k] != CLOSE && ValidParamChar(t[k])) &&
            (forall k :: s2 + 2 <= k < e2 ==> t[k] != CLOSE && ValidParamChar(t[k])) &&
            (forall k :: e1 + 1 <= k < s2 ==> t[k] != ESCAPE && t[k] != START)
  {
    var e1 := |x| + 2;
    var s2 := e1 + 1 + |mid|;
    var e2 := s2 + 2 + |y|;
    assert t[2..e1] == x && t[e1 + 1..s2] == mid && t[s2 + 2..e2] == y;
    forall k | 2 <= k < e1 ensures t[k] != CLOSE && ValidParamChar(t[k]) {
      assert t[k] == x[k - 2];
    }
    forall k | s2 + 2 <= k < e2 ensures t[k] != CLOSE && ValidParamChar(t[k]) {
      assert t[k] == y[k - s2 - 2];
    }
    forall k | e1 + 1 <= k < s2 ensures t[k] != ESCAPE && t[k] != START {
      assert t[k] == mid[k - e1 - 1];
    }
  }

  /** Two placeholders around a literal dash. */
  lemma DashBetweenPlaceholders(resolve: Resolve)
    requires resolve("int3") == Ok(Substitution("5", ""))
    requires resolve("int2") == Ok(Substitution("7", ""))
    ensures Render("#{int3}-#{int2}", resolve) == Ok("5-7")
  {
    PlaceholdersAroundText("#{int3}-#{int2}", "int3", "-", "int2", resolve);
    assert "5" + "-" + "7" == "5-7";
  }

  /** A template that is one placeholder renders as the value of its path. */
  lemma SinglePlaceholder(t: string, name: string, resolve: Resolve)
    requires t == "#{" + name + "}" && PlainName(name)
    ensures resolve(name).Err? ==> Render(t, resolve) == Err(resolve(name).error)
    ensures resolve(name).Ok? ==> Render(t, resolve) == Ok(resolve(name).value.text)
  {
    var j := |t| - 1;
    assert t[2..j] == name;
    forall k | 2 <= k < j ensures t[k] != CLOSE && ValidParamChar(t[k]) {
      assert t[k] == name[k - 2];
    }
    RenderPlaceholder(t, 0, j, resolve);
    assert RenderFrom(t, j + 1, resolve) == Ok("");
    if resolve(name).Ok? {
      assert resolve(name).value.text + "" == resolve(name).value.text;
    }
  }
}
