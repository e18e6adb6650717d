/** The tagged values that travel through the logger queue (include/logger.hpp, src/logger.cpp). */
module LogElements {
  datatype LogType =
    | Char
    | Integer | LongInteger | LongLongInteger
    | UnsignedInteger | UnsignedLongInteger | UnsignedLongLongInteger
    | Float | Double

  /** The union of a log element together with the member that was written last. */
  datatype Payload =
    | C(c: char)
    | I(i: int) | L(l: int) | LL(ll: int)
    | U(u: nat) | UL(ul: nat) | ULL(ull: nat)
    | F(f: real) | D(d: real)

  datatype LogElement = LogElement(tag: LogType, payload: Payload)

  /** The member that the switch in flushQueue reads for this tag is the one that was written. */
  predicate Selects(tag: LogType, p: Payload) {
    match tag
    case Char => p.C?
    case Integer => p.I?
    case LongInteger => p.L?
    case LongLongInteger => p.LL?
    case UnsignedInteger => p.U?
    case UnsignedLongInteger => p.UL?
    case UnsignedLongLongInteger => p.ULL?
    case Float => p.F?
    case Double => p.D?
  }

  predicate WellTagged(es: seq<LogElement>) {
    forall k :: 0 <= k < |es| ==> Selects(es[k].tag, es[k].payload)
  }

  /** A value that the caller may pass to log. */
  datatype Arg =
    | CharArg(c: char)
    | IntArg(i: int) | LongArg(l: int) | LongLongArg(ll: int)
    | UnsignedArg(u: nat) | UnsignedLongArg(ul: nat) | UnsignedLongLongArg(ull: nat)
    | FloatArg(f: real) | DoubleArg(d: real)
    | CStringArg(chars: string)
    | StringArg(str: string)

  const NUL: char := '\0'

  /** A C string is everything before its first NUL. */
  function CString(s: string): (t: string)
    ensures NUL !in t && t <= s
    ensures t == s || s[|t|] == NUL
  {
    if s == [] || s[0] == NUL then []
    else [s[0]] + CString(s[1..])
  }

  function CharElement(c: char): LogElement {
    LogElement(Char, C(c))
  }

  function CharElements(s: string): (es: seq<LogElement>)
    ensures |es| == |s| && forall k :: 0 <= k < |s| ==> es[k] == CharElement(s[k])
  {
    seq(|s|, k requires 0 <= k < |s| => CharElement(s[k]))
  }

  /** The elements that the pushValue overload for this argument type pushes. */
  function Elements(a: Arg): (es: seq<LogElement>)
    ensures WellTagged(es)
  {
    match a
    case CharArg(c) => [CharElement(c)]
    case IntArg(i) => [LogElement(Integer, I(i))]
    case LongArg(l) => [LogElement(LongInteger, L(l))]
    case LongLongArg(ll) => [LogElement(LongLongInteger, LL(ll))]
    case UnsignedArg(u) => [LogElement(UnsignedInteger, U(u))]
    case UnsignedLongArg(ul) => [LogElement(UnsignedLongInteger, UL(ul))]
    case UnsignedLongLongArg(ull) => [LogElement(UnsignedLongLongInteger, ULL(ull))]
    case FloatArg(f) => [LogElement(Float, F(f))]
    case DoubleArg(d) => [LogElement(Double, D(d))]
    case CStringArg(s) => CharElements(CString(s))
    case StringArg(s) => CharElements(CString(s))
  }

  /** pushValue(const char*): one character element at a time until the terminating NUL. */
  method PushText(text: string) returns (pushed: seq<LogElement>)
    ensures pushed == CharElements(CString(text))
  {
    pushed := [];
    var i := 0;
    while i < |text| && text[i] != NUL
      invariant 0 <= i <= |text|
      invariant NUL !in text[..i]
      invariant pushed == CharElements(text[..i])
    {
      pushed := pushed + [CharElement(text[i])];
      i := i + 1;
    }
    CStringIs(text, i);
  }

  lemma {:induction false} CStringIs(s: string, n: nat)
    requires n <= |s| && NUL !in s[..n] && (n == |s| || s[n] == NUL)
    ensures CString(s) == s[..n]
  {
    if n > 0 {
      assert s[..n][0] == s[0];
      assert s[1..][..n - 1] == s[..n][1..];
      CStringIs(s[1..], n - 1);
    }
  }

  // ---- Text ----

  /** What the stream writes for one payload; number formatting is the caller's choice. */
  ghost function Show(p: Payload, number: Payload -> string): string {
    if p.C? then [p.c] else number(p)
  }

  ghost function Render(es: seq<LogElement>, number: Payload -> string): string {
    if es == [] then "" else Show(es[0].payload, number) + Render(es[1..], number)
  }

  lemma {:induction false} RenderAppend(a: seq<LogElement>, b: seq<LogElement>, number: Payload -> string)
    ensures Render(a + b, number) == Render(a, number) + Render(b, number)
  {
    if a == [] {
      assert a + b == b;
    } else {
      assert (a + b)[1..] == a[1..] + b;
      RenderAppend(a[1..], b, number);
    }
  }

  lemma {:induction false} RenderChars(s: string, number: Payload -> string)
    ensures Render(CharElements(s), number) == s
  {
    if s != [] {
      assert CharElements(s)[1..] == CharElements(s[1..]);
      RenderChars(s[1..], number);
    }
  }

  /** The text that an argument contributes, taken directly from the argument. */
  ghost function ArgText(a: Arg, number: Payload -> string): string {
    match a
    case CharArg(c) => [c]
    case CStringArg(s) => CString(s)
    case StringArg(s) => CString(s)
    case IntArg(i) => number(I(i))
    case LongArg(l) => number(L(l))
    case LongLongArg(ll) => number(LL(ll))
    case UnsignedArg(u) => number(U(u))
    case UnsignedLongArg(ul) => number(UL(ul))
    case UnsignedLongLongArg(ull) => number(ULL(ull))
    case FloatArg(f) => number(F(f))
    case DoubleArg(d) => number(D(d))
  }

  lemma ElementsText(a: Arg, number: Payload -> string)
    ensures Render(Elements(a), number) == ArgText(a, number)
  {
    if a.CStringArg? {
      RenderChars(CString(a.chars), number);
    } else if a.StringArg? {
      RenderChars(CString(a.str), number);
    } else {
      assert Elements(a)[1..] == [];
    }
  }

  /**
   The pushValue overloads: a numeric one stores its value in the matching member under the matching tag, a
   text one pushes characters.  Whatever the number format, what is pushed reads back as the argument.
   */
  method PushValue(a: Arg) returns (pushed: seq<LogElement>)
    ensures pushed == Elements(a) && WellTagged(pushed)
    ensures forall number :: Render(pushed, number) == ArgText(a, number)
  {
    match a {
      case CharArg(c) => pushed := [LogElement(Char, C(c))];
      case IntArg(i) => pushed := [LogElement(Integer, I(i))];
      case LongArg(l) => pushed := [LogElement(LongInteger, L(l))];
      case LongLongArg(ll) => pushed := [LogElement(LongLongInteger, LL(ll))];
      case UnsignedArg(u) => pushed := [LogElement(UnsignedInteger, U(u))];
      case UnsignedLongArg(ul) => pushed := [LogElement(UnsignedLongInteger, UL(ul))];
      case UnsignedLongLongArg(ull) => pushed := [LogElement(UnsignedLongLongInteger, ULL(ull))];
      case FloatArg(f) => pushed := [LogElement(Float, F(f))];
      case DoubleArg(d) => pushed := [LogElement(Double, D(d))];
      case CStringArg(s) => pushed := PushText(s);
      case StringArg(s) => pushed := PushText(s);
    }
    forall number
      ensures Render(pushed, number) == ArgText(a, number)
    {
      ElementsText(a, number);
    }
  }

  /** A std::string argument arrives in the file whole exactly when it contains no NUL character. */
  lemma StringIsWholeIff(s: string, number: Payload -> string)
    ensures Render(Elements(StringArg(s)), number) == s <==> NUL !in s
  {
    ElementsText(StringArg(s), number);
  }

  /** A string that does not: everything from the NUL on is lost. */
  lemma StringIsCut(number: Payload -> string)
    ensures Render(Elements(StringArg(['a', NUL, 'b'])), number) == "a"
  {
    ElementsText(StringArg(['a', NUL, 'b']), number);
    CStringIs(['a', NUL, 'b'], 1);
  }
}
