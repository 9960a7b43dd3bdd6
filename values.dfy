/** Values that can be bound to a template, their natural text, and the rendering of
    arrays as a bracketed, comma-separated list (AlephFormatter.evaluateIfArray,
    arrayToString and clearLastComma). */
module Values {

  /** A bound value: Java's untyped object reference as a tagged union. `Arr` is a Java
      array (primitive or not); `Obj` is any other object, known only by an identity. */
  datatype Value = Null | Int(n: int) | Str(s: string) | Arr(elems: seq<Value>) | Obj(id: nat)

  /** What calling a located no-argument accessor does: it returns a value, or it throws. */
  datatype Invocation = Returns(result: Value) | Throws

  /** The part of the Java runtime that the formatter consults: the public no-argument
      methods of each value, by name (standing in for reflection), and the natural text
      (`toString`) of arrays and objects, which is library behaviour left uninterpreted. */
  datatype Runtime = Runtime(members: map<(Value, string), Invocation>, describe: Value -> string)

  /** ASCII approximations of `Character.isDigit` and `Character.isLetter`. */
  predicate IsDigit(c: char) { '0' <= c <= '9' }

  predicate IsLetter(c: char) { 'A' <= c <= 'Z' || 'a' <= c <= 'z' }

  function DigitChar(d: nat): (c: char)
    requires d < 10
    ensures IsDigit(c) && c as int - '0' as int == d
  {
    ('0' as int + d) as char
  }

  /** Decimal text of a natural number, without leading zeros. */
  function NatText(n: nat): (r: string)
    ensures |r| > 0 && (r[0] == '0' ==> n == 0)
    ensures forall k :: 0 <= k < |r| ==> IsDigit(r[k])
    decreases n
  {
    if n < 10 then [DigitChar(n)] else NatText(n / 10) + [DigitChar(n % 10)]
  }

  /** Decimal text of an integer, as `Integer.toString` writes it. */
  function IntText(n: int): (r: string)
    ensures |r| > 0 && (r[0] == '-' <==> n < 0)
    ensures forall k :: (if n < 0 then 1 else 0) <= k < |r| ==> IsDigit(r[k])
  {
    if n < 0 then "-" + NatText(-n) else NatText(n)
  }

  /** The text `StringBuilder.append(Object)` produces for a value. */
  function Natural(v: Value, rt: Runtime): string {
    match v
    case Null => "null"
    case Int(n) => IntText(n)
    case Str(s) => s
    case _ => rt.describe(v)
  }

  /** The natural text of each element, in order. */
  function Texts(elems: seq<Value>, rt: Runtime): (r: seq<string>)
    ensures |r| == |elems|
    ensures forall k :: 0 <= k < |elems| ==> r[k] == Natural(elems[k], rt)
  {
    if elems == [] then [] else Texts(elems[..|elems| - 1], rt) + [Natural(elems[|elems| - 1], rt)]
  }

  /** The parts separated by `sep`. */
  function Join(parts: seq<string>, sep: string): string {
    if |parts| == 0 then ""
    else if |parts| == 1 then parts[0]
    else Join(parts[..|parts| - 1], sep) + sep + parts[|parts| - 1]
  }

  /** The parts, each followed by `sep` (what the rendering loop builds before trimming). */
  function Terminated(parts: seq<string>, sep: string): string {
    if parts == [] then "" else Terminated(parts[..|parts| - 1], sep) + parts[|parts| - 1] + sep
  }

  /** The reference rendering of an array: its elements' text joined by ", ", in brackets. */
  function ArrayText(elems: seq<Value>, rt: Runtime): string {
    "[" + Join(Texts(elems, rt), ", ") + "]"
  }

  /** What the formatter appends for a resolved value: arrays are rendered as lists,
      everything else by its natural text. */
  function Text(v: Value, rt: Runtime): (r: string)
    ensures v.Null? ==> r == "null"
    ensures v.Arr? ==> r == ArrayText(v.elems, rt)
    ensures !v.Arr? ==> r == Natural(v, rt)
  {
    if v.Arr? then ArrayText(v.elems, rt) else Natural(v, rt)
  }

  predicate OccursAt(s: string, pat: string, k: int) {
    0 <= k <= |s| - |pat| && s[k..k + |pat|] == pat
  }

  /** `String.lastIndexOf`: the last index at which `pat` occurs in `s`, or -1. */
  function LastIndexOf(s: string, pat: string): (r: int)
    ensures r == -1 || 0 <= r <= |s| - |pat|
    ensures r >= 0 ==> OccursAt(s, pat, r)
    ensures forall k :: r < k && OccursAt(s, pat, k) ==> false
  {
    LastIndexAtOrBelow(s, pat, |s| - |pat|)
  }

  function LastIndexAtOrBelow(s: string, pat: string, k: int): (r: int)
    requires k <= |s| - |pat|
    ensures r == -1 || 0 <= r <= k
    ensures r >= 0 ==> OccursAt(s, pat, r)
    ensures forall j :: r < j <= k ==> !OccursAt(s, pat, j)
    decreases k + 1
  {
    if k < 0 then -1
    else if s[k..k + |pat|] == pat then k
    else LastIndexAtOrBelow(s, pat, k - 1)
  }

  /** Deletes everything from the last ", " on; a buffer without one is kept whole. */
  function ClearLastComma(buff: string): (r: string)
    ensures r <= buff
    ensures LastIndexOf(buff, ", ") == -1 <==> r == buff
    ensures r != buff ==> OccursAt(buff, ", ", |r|) && forall k :: |r| < k ==> !OccursAt(buff, ", ", k)
  {
    var last := LastIndexOf(buff, ", ");
    if last == -1 then buff else buff[..last]
  }

  /** Trimming a buffer that ends with the separator removes exactly that separator,
      whatever the text before it contains. */
  lemma ClearLastCommaDropsFinalSeparator(s: string)
    ensures ClearLastComma(s + ", ") == s
  {
    var b := s + ", ";
    assert OccursAt(b, ", ", |s|);
    assert LastIndexOf(b, ", ") == |s|;
  }

  /** Terminating every part with the separator is joining them and adding one separator. */
  lemma {:induction false} TerminatedIsJoinThenSeparator(parts: seq<string>, sep: string)
    requires |parts| > 0
    ensures Terminated(parts, sep) == Join(parts, sep) + sep
  {
    if |parts| > 1 {
      TerminatedIsJoinThenSeparator(parts[..|parts| - 1], sep);
    } else {
      assert parts[..0] == [];
    }
  }

  /** One turn of the loop of arrayToString keeps the buffer equal to the terminated texts
      of the elements visited so far. */
  lemma BufferExtend(buff: string, elems: seq<Value>, i: nat, rt: Runtime)
    requires i < |elems| && buff == "[" + Terminated(Texts(elems[..i], rt), ", ")
    ensures buff + Natural(elems[i], rt) + ", " == "[" + Terminated(Texts(elems[..i + 1], rt), ", ")
  {
    assert elems[..i + 1][..i] == elems[..i];
    var texts := Texts(elems[..i + 1], rt);
    assert texts[..i] == Texts(elems[..i], rt);
  }

  /** arrayToString: append every element followed by ", ", trim the last ", ", close the
      bracket; the result is the reference join. */
  method ArrayToString(elems: seq<Value>, rt: Runtime) returns (r: string)
    ensures r == ArrayText(elems, rt)
    ensures elems == [] ==> r == "[]"
  {
    var buff := "[";
    var i := 0;
    while i < |elems|
      invariant 0 <= i <= |elems|
      invariant buff == "[" + Terminated(Texts(elems[..i], rt), ", ")
    {
      BufferExtend(buff, elems, i, rt);
      buff := buff + Natural(elems[i], rt) + ", ";
      i := i + 1;
    }
    assert elems[..i] == elems;
    TrimmedBufferIsArrayText(elems, rt);
    r := ClearLastComma(buff) + "]";
  }

  /** What the loop leaves in the buffer, trimmed and closed, is the reference rendering. */
  lemma TrimmedBufferIsArrayText(elems: seq<Value>, rt: Runtime)
    ensures ClearLastComma("[" + Terminated(Texts(elems, rt), ", ")) + "]" == ArrayText(elems, rt)
  {
    var texts := Texts(elems, rt);
    if elems == [] {
      assert "[" + Terminated(texts, ", ") == "[";
      assert !OccursAt("[", ", ", 0);
    } else {
      TerminatedIsJoinThenSeparator(texts, ", ");
      assert "[" + Terminated(texts, ", ") == ("[" + Join(texts, ", ")) + ", ";
      ClearLastCommaDropsFinalSeparator("[" + Join(texts, ", "));
    }
  }

  /** The cases of AlephFormatterTest.testWithPrimitiveArray and testWithPrimitiveArrayEmpty. */
  lemma ArrayTextExamples(rt: Runtime)
    ensures ArrayText([Int(1), Int(3), Int(4)], rt) == "[1, 3, 4]"
    ensures ArrayText([], rt) == "[]"
  {
    var es := [Int(1), Int(3), Int(4)];
    assert Texts(es, rt) == ["1", "3", "4"];
    assert Join(["1", "3", "4"], ", ") == "1, 3, 4" by {
      assert ["1", "3", "4"][..2] == ["1", "3"];
      assert ["1", "3"][..1] == ["1"];
    }
  }
}
