/** The percent-format expander: the two log functions of include/logger.hpp. */
module LogFormat {
  import opened Sequences
  import opened LogElements

  /** A format string read as literal characters and holes for arguments. */
  datatype Segment = Literal(c: char) | Hole

  /** How a call ends: normally, or at one of the two assertions. */
  datatype Outcome = Finished | MissingArgument | ExtraArguments

  datatype Expansion = Expansion(pushed: seq<LogElement>, outcome: Outcome)

  /** The character at position i of a C string; the terminator at the end. */
  function At(s: string, i: nat): char {
    if i < |s| then s[i] else NUL
  }

  /** Reading a format string: two percent signs make a literal one, a single one is a hole. */
  function Parse(s: string): (segs: seq<Segment>)
    decreases |s|
  {
    if At(s, 0) == NUL then []
    else if s[0] == '%' && At(s, 1) == '%' then [Literal('%')] + Parse(s[2..])
    else if s[0] == '%' then [Hole] + Parse(s[1..])
    else [Literal(s[0])] + Parse(s[1..])
  }

  function Print(segs: seq<Segment>): string {
    if segs == [] then ""
    else
      (if segs[0] == Hole then "%" else if segs[0].c == '%' then "%%" else [segs[0].c])
      + Print(segs[1..])
  }

  // ---- Round trip ----

  /** No hole is directly followed by a hole or a literal percent sign, and no literal is NUL. */
  predicate Canonical(segs: seq<Segment>) {
    && (forall k :: 0 <= k < |segs| ==> segs[k] != Literal(NUL))
    && (forall k :: 0 <= k < |segs| - 1 ==>
          segs[k] == Hole ==> segs[k + 1] != Hole && segs[k + 1] != Literal('%'))
  }

  lemma {:induction false} ParseIsCanonical(s: string)
    ensures Canonical(Parse(s))
    ensures At(s, 0) != '%' ==> Parse(s) == [] || (Parse(s)[0] != Hole && Parse(s)[0] != Literal('%'))
    decreases |s|
  {
    if At(s, 0) == NUL {
    } else if s[0] == '%' && At(s, 1) == '%' {
      ParseIsCanonical(s[2..]);
    } else {
      ParseIsCanonical(s[1..]);
    }
  }

  lemma {:induction false} PrintParse(s: string)
    requires NUL !in s
    ensures Print(Parse(s)) == s
    decreases |s|
  {
    if s == [] {
    } else if s[0] == '%' && At(s, 1) == '%' {
      PrintParse(s[2..]);
      assert s == "%%" + s[2..];
    } else {
      PrintParse(s[1..]);
      assert s == [s[0]] + s[1..];
    }
  }

  lemma {:induction false} ParsePrint(segs: seq<Segment>)
    requires Canonical(segs)
    ensures Parse(Print(segs)) == segs
    ensures segs != [] && segs[0] != Hole && segs[0] != Literal('%') ==> At(Print(segs), 0) != '%'
  {
    if segs != [] {
      var rest := segs[1..];
      ParsePrint(rest);
      var s, t := Print(segs), Print(rest);
      if segs[0] == Hole {
        assert s[1..] == t;
        assert At(s, 1) == At(t, 0);
        assert rest != [] ==> segs[1] == rest[0];
      } else if segs[0].c == '%' {
        assert s[2..] == t;
      } else {
        assert s[1..] == t;
      }
      assert segs == [segs[0]] + rest;
    }
  }

  /** Reading is a bijection from NUL-free strings onto canonical segment lists, with Print as its inverse. */
  lemma ReadingIsBijective(s: string, segs: seq<Segment>)
    ensures NUL !in s ==> Print(Parse(s)) == s
    ensures Parse(Print(segs)) == segs <==> Canonical(segs)
    ensures Canonical(segs) ==> NUL !in Print(segs)
  {
    if NUL !in s {
      PrintParse(s);
    }
    ParseIsCanonical(Print(segs));
    if Canonical(segs) {
      ParsePrint(segs);
      PrintHasNoNul(segs);
    }
  }

  /** Reading looks at the C string only: nothing behind the first NUL counts. */
  lemma {:induction false} ParseStopsAtNul(s: string)
    ensures Parse(s) == Parse(CString(s))
    decreases |s|
  {
    if At(s, 0) != NUL {
      var t := CString(s);
      assert t[1..] == CString(s[1..]);
      assert At(t, 1) == At(s, 1);
      if s[0] == '%' && At(s, 1) == '%' {
        assert t[2..] == CString(s[2..]);
        ParseStopsAtNul(s[2..]);
      } else {
        ParseStopsAtNul(s[1..]);
      }
    }
  }

  lemma {:induction false} PrintHasNoNul(segs: seq<Segment>)
    requires Canonical(segs)
    ensures NUL !in Print(segs)
  {
    if segs != [] {
      PrintHasNoNul(segs[1..]);
    }
  }

  // ---- Expansion ----

  function After(pushed: seq<LogElement>, e: Expansion): Expansion {
    e.(pushed := pushed + e.pushed)
  }

  /**
   What a call pushes.  In a debug build a failed assertion stops the call; in a release build the
   assertions are absent, a hole without an argument is pushed as a percent sign and surplus arguments
   are dropped.
   */
  function Expand(segs: seq<Segment>, args: seq<Arg>, debug: bool): Expansion {
    if segs == [] then
      Expansion([], if args != [] && debug then ExtraArguments else Finished)
    else if segs[0].Literal? then
      After([CharElement(segs[0].c)], Expand(segs[1..], args, debug))
    else if args != [] then
      After(Elements(args[0]), Expand(segs[1..], args[1..], debug))
    else if debug then
      Expansion([], MissingArgument)
    else
      After([CharElement('%')], Expand(segs[1..], args, debug))
  }

  /** log(const char*): no arguments left. */
  method LogRest(s: string, debug: bool) returns (pushed: seq<LogElement>, outcome: Outcome)
    ensures Expansion(pushed, outcome) == Expand(Parse(s), [], debug)
  {
    pushed := [];
    var i := 0;
    while At(s, i) != NUL
      invariant 0 <= i <= |s|
      invariant Expand(Parse(s), [], debug) == After(pushed, Expand(Parse(s[i..]), [], debug))
      decreases |s| - i
    {
      ghost var t := s[i..];
      if s[i] == '%' {
        if At(s, i + 1) == '%' {
          i := i + 1;
          assert t[2..] == s[i + 1..];
        } else {
          assert t[1..] == s[i + 1..];
          if debug {
            outcome := MissingArgument;
            return;
          }
        }
      } else {
        assert t[1..] == s[i + 1..];
      }
      AfterSnoc(pushed, [CharElement(s[i])], Expand(Parse(s[i + 1..]), [], debug));
      pushed := pushed + [CharElement(s[i])];
      i := i + 1;
    }
    outcome := Finished;
  }

  lemma AfterSnoc(a: seq<LogElement>, b: seq<LogElement>, e: Expansion)
    ensures After(a + b, e) == After(a, After(b, e))
  {
    AppendAssoc(a, b, e.pushed);
  }

  /** log(const char*, value, args...): recursion over the argument pack. */
  method Log(s: string, args: seq<Arg>, debug: bool) returns (pushed: seq<LogElement>, outcome: Outcome)
    ensures Expansion(pushed, outcome) == Expand(Parse(s), args, debug)
    decreases |args|
  {
    if args == [] {
      pushed, outcome := LogRest(s, debug);
      return;
    }
    pushed := [];
    var i := 0;
    while At(s, i) != NUL
      invariant 0 <= i <= |s|
      invariant Expand(Parse(s), args, debug) == After(pushed, Expand(Parse(s[i..]), args, debug))
      decreases |s| - i
    {
      ghost var t := s[i..];
      if s[i] == '%' {
        if At(s, i + 1) == '%' {
          i := i + 1;
          assert t[2..] == s[i + 1..];
        } else {
          assert t[1..] == s[i + 1..];
          var first := PushValue(args[0]);
          var more, end := Log(s[i + 1..], args[1..], debug);
          AfterSnoc(pushed, first, Expansion(more, end));
          pushed := pushed + first + more;
          outcome := end;
          return;
        }
      } else {
        assert t[1..] == s[i + 1..];
      }
      AfterSnoc(pushed, [CharElement(s[i])], Expand(Parse(s[i + 1..]), args, debug));
      pushed := pushed + [CharElement(s[i])];
      i := i + 1;
    }
    outcome := if debug then ExtraArguments else Finished;
  }

  // ---- Arity ----

  function Holes(segs: seq<Segment>): nat {
    if segs == [] then 0 else (if segs[0] == Hole then 1 else 0) + Holes(segs[1..])
  }

  /**
   With assertions on, a call passes both assertions exactly when it has as many holes as arguments;
   otherwise the direction of the mismatch decides which assertion stops it.
   */
  lemma {:induction false} Arity(segs: seq<Segment>, args: seq<Arg>)
    ensures var outcome := Expand(segs, args, true).outcome;
      && (outcome == Finished <==> Holes(segs) == |args|)
      && (outcome == MissingArgument <==> Holes(segs) > |args|)
      && (outcome == ExtraArguments <==> Holes(segs) < |args|)
  {
    if segs == [] {
    } else if segs[0] == Hole && args != [] {
      Arity(segs[1..], args[1..]);
    } else {
      Arity(segs[1..], args);
    }
  }

  /** A release build never stops early, and agrees with a debug build that does not stop either. */
  lemma {:induction false} BuildsAgree(segs: seq<Segment>, args: seq<Arg>)
    ensures Expand(segs, args, false).outcome == Finished
    ensures Expand(segs, args, true).pushed <= Expand(segs, args, false).pushed
    ensures Expand(segs, args, true).outcome == Finished ==>
      Expand(segs, args, true) == Expand(segs, args, false)
  {
    if segs == [] {
    } else if segs[0] == Hole && args != [] {
      BuildsAgree(segs[1..], args[1..]);
    } else {
      BuildsAgree(segs[1..], args);
    }
  }

  /** The position of the hole that n others precede, or the number of segments if there are fewer holes. */
  function HoleAt(segs: seq<Segment>, n: nat): (k: nat)
    ensures k <= |segs|
    ensures k < |segs| ==> segs[k] == Hole && Holes(segs[..k]) == n
  {
    if segs == [] || (segs[0] == Hole && n == 0) then 0
    else
      var k := HoleAt(segs[1..], if segs[0] == Hole then n - 1 else n);
      assert k + 1 <= |segs| ==> segs[..k + 1][1..] == segs[1..][..k];
      1 + k
  }

  /**
   What a debug build has pushed when it stops: everything in front of the hole that finds no argument, or, when
   there are too many arguments or just enough, the whole message.
   */
  lemma {:induction false} DebugPushes(segs: seq<Segment>, args: seq<Arg>)
    ensures Expand(segs, args, true).pushed == Expand(segs[..HoleAt(segs, |args|)], args, false).pushed
  {
    if segs != [] && !(segs[0] == Hole && args == []) {
      var rest, left := segs[1..], if segs[0] == Hole then args[1..] else args;
      DebugPushes(rest, left);
      var k := HoleAt(rest, |left|);
      assert segs[..k + 1][1..] == rest[..k] && segs[..k + 1][0] == segs[0];
    }
  }

  lemma {:induction false} ExpandIsWellTagged(segs: seq<Segment>, args: seq<Arg>, debug: bool)
    ensures WellTagged(Expand(segs, args, debug).pushed)
  {
    if segs == [] {
    } else if segs[0] == Hole && args != [] {
      ExpandIsWellTagged(segs[1..], args[1..], debug);
    } else {
      ExpandIsWellTagged(segs[1..], args, debug);
    }
  }

  // ---- The text of a call, by position ----

  /**
   The text for one segment when h holes precede it: a literal stands for itself, the hole number h for
   argument h, and a hole beyond the last argument for a percent sign.
   */
  ghost function Piece(seg: Segment, h: nat, args: seq<Arg>, number: Payload -> string): string {
    if seg.Literal? then [seg.c]
    else if h < |args| then ArgText(args[h], number)
    else "%"
  }

  ghost function Pieces(segs: seq<Segment>, h: nat, args: seq<Arg>, number: Payload -> string): seq<string> {
    seq(|segs|, k requires 0 <= k < |segs| => Piece(segs[k], h + Holes(segs[..k]), args, number))
  }

  /** The text a call stands for; argument text is inserted as it is, never read again for percent signs. */
  ghost function CallText(s: string, args: seq<Arg>, number: Payload -> string): string {
    Flatten(Pieces(Parse(s), 0, args, number))
  }

  lemma PiecesTail(segs: seq<Segment>, h: nat, args: seq<Arg>, number: Payload -> string)
    requires segs != []
    ensures var h' := if segs[0] == Hole then h + 1 else h;
      Pieces(segs, h, args, number)
        == [Piece(segs[0], h, args, number)] + Pieces(segs[1..], h', args, number)
  {
    forall k | 1 <= k < |segs|
      ensures Holes(segs[..k]) == (if segs[0] == Hole then 1 else 0) + Holes(segs[1..][..k - 1])
    {
      assert segs[..k][1..] == segs[1..][..k - 1];
    }
  }

  function Drop(args: seq<Arg>, h: nat): seq<Arg> {
    if h <= |args| then args[h..] else []
  }

  lemma {:induction false} ExpandText(segs: seq<Segment>, h: nat, args: seq<Arg>, number: Payload -> string)
    ensures Render(Expand(segs, Drop(args, h), false).pushed, number)
      == Flatten(Pieces(segs, h, args, number))
    decreases |segs|
  {
    if segs != [] {
      PiecesTail(segs, h, args, number);
      var first, rest := Piece(segs[0], h, args, number), segs[1..];
      var left := Drop(args, h);
      var h' := if segs[0] == Hole then h + 1 else h;
      ExpandText(rest, h', args, number);
      var now := if segs[0].Literal? then [CharElement(segs[0].c)]
                 else if left != [] then Elements(left[0]) else [CharElement('%')];
      var later := Expand(rest, Drop(args, h'), false).pushed;
      assert Expand(segs, left, false).pushed == now + later;
      RenderAppend(now, later, number);
      if segs[0] == Hole && left != [] {
        ElementsText(left[0], number);
      } else {
        assert now[1..] == [];
      }
      assert Render(now, number) == first;
    }
  }

  /** The elements pushed by a release-build call render to the call's text, for every format and arguments. */
  lemma LogRendersCall(s: string, args: seq<Arg>, number: Payload -> string)
    ensures Render(Expand(Parse(s), args, false).pushed, number) == CallText(s, args, number)
  {
    assert Drop(args, 0) == args;
    ExpandText(Parse(s), 0, args, number);
  }
}
