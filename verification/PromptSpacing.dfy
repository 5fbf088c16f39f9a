/** pythonJSONSpacing of inference/prompted.go: one space after each comma or colon outside strings. The scanner works
    on arbitrary input, valid JSON or not. */
module PromptSpacing {

  /** Where the scanner stands: whether inside a string literal, and whether behind a backslash. */
  datatype Mode = Outside | InString | Escaped

  function Advance(m: Mode, c: char): Mode {
    match m
    case Outside => if c == '"' then InString else Outside
    case InString => if c == '\\' then Escaped else if c == '"' then Outside else InString
    case Escaped => InString
  }

  /** The mode after scanning a text. */
  function Scan(m: Mode, s: string): Mode
    decreases |s|
  {
    if s == "" then m else Scan(Advance(m, s[0]), s[1..])
  }

  predicate Separates(m: Mode, c: char) { m == Outside && (c == ',' || c == ':') }

  function Spaced(m: Mode, s: string): string
    decreases |s|
  {
    if s == "" then ""
    else SpacedChar(m, s[0]) + Spaced(Advance(m, s[0]), s[1..])
  }

  /** What one character becomes. */
  function SpacedChar(m: Mode, c: char): string { if Separates(m, c) then [c, ' '] else [c] }

  lemma SpacedCons(m: Mode, c: char, rest: string)
    ensures Scan(m, [c] + rest) == Scan(Advance(m, c), rest)
    ensures Spaced(m, [c] + rest) == SpacedChar(m, c) + Spaced(Advance(m, c), rest)
  {
    assert ([c] + rest)[1..] == rest;
  }

  lemma Associates(a: string, b: string, c: string)
    ensures a + (b + c) == (a + b) + c
  {}

  lemma {:induction false} SpacedSnoc(m: Mode, s: string, c: char)
    ensures Scan(m, s + [c]) == Advance(Scan(m, s), c)
    ensures Spaced(m, s + [c]) == Spaced(m, s) + SpacedChar(Scan(m, s), c)
    decreases |s|
  {
    if s == "" {
      assert s + [c] == [c] + "";
      SpacedCons(m, c, "");
    } else {
      var first, rest := s[0], s[1..];
      SpacedSnoc(Advance(m, first), rest, c);
      assert s == [first] + rest && s + [c] == [first] + (rest + [c]);
      SpacedCons(m, first, rest);
      SpacedCons(m, first, rest + [c]);
      Associates(SpacedChar(m, first), Spaced(Advance(m, first), rest), SpacedChar(Scan(m, s), c));
    }
  }

  /** pythonJSONSpacing: every character in order, and one space behind each comma or colon outside string literals. */
  method PythonJsonSpacing(compact: string) returns (result: string)
    ensures result == WithSpaces(compact, |compact|)
    ensures result == Spaced(Outside, compact)
  {
    SpacedIsWithSpaces(compact, |compact|);
    result := "";
    var inString, escaped := false, false;
    for n := 0 to |compact|
      invariant Scan(Outside, compact[..n]) == if !inString then Outside else if escaped then Escaped else InString
      invariant escaped ==> inString
      invariant result == Spaced(Outside, compact[..n])
    {
      var character := compact[n];
      SpacedSnoc(Outside, compact[..n], character);
      assert compact[..n + 1] == compact[..n] + [character];
      result := result + [character];
      if inString {
        if escaped {
          escaped := false;
        } else if character == '\\' {
          escaped := true;
        } else if character == '"' {
          inString := false;
        }
        continue;
      }
      if character == '"' {
        inString := true;
      } else if character == ',' || character == ':' {
        result := result + " ";
      }
    }
    assert compact[..|compact|] == compact;
  }

  // ---------- which characters lie outside string literals ----------

  /** How many backslashes stand in a row right before `i`, counting back to `from` at most. */
  function Backslashes(s: string, from: nat, i: nat): nat
    requires from <= i <= |s|
  {
    if i > from && s[i - 1] == '\\' then 1 + Backslashes(s, from, i - 1) else 0
  }

  /** No quote between `from` and `i` closes a literal that opened right before `from`: each is escaped. */
  ghost predicate Unclosed(s: string, from: nat, i: nat)
    requires from <= i <= |s|
  {
    forall q | from <= q < i && s[q] == '"' :: Backslashes(s, from, q) % 2 == 1
  }

  /** Position `i` lies in no string literal: each quote before it that is outside literals itself, and so opens one, has
      been closed. */
  ghost predicate IsOutside(s: string, i: nat)
    requires i <= |s|
  {
    forall open {:trigger HasClosed(s, open, i)} | 0 <= open < i && s[open] == '"' && IsOutside(s, open) :: HasClosed(s, open, i)
  }

  /** A literal opened at `open` has been closed before `i`. */
  ghost predicate HasClosed(s: string, open: nat, i: nat)
    requires open < i <= |s|
  {
    !Unclosed(s, open + 1, i)
  }

  /** The quote at `open` opens the literal that position `i` lies in. */
  ghost predicate Encloses(s: string, open: nat, i: nat)
    requires open < i <= |s|
  {
    s[open] == '"' && IsOutside(s, open) && Unclosed(s, open + 1, i)
  }

  /** The first n characters, each comma or colon outside literals followed by a space. */
  ghost function WithSpaces(s: string, n: nat): string
    requires n <= |s|
  {
    if n == 0 then ""
    else
      var c := s[n - 1];
      WithSpaces(s, n - 1) + (if (c == ',' || c == ':') && IsOutside(s, n - 1) then [c, ' '] else [c])
  }

  /** The mode agrees with the position: outside, or in a literal, behind an odd run of backslashes or not. */
  ghost predicate Agrees(s: string, i: nat, m: Mode)
    requires i <= |s|
  {
    if m == Outside then IsOutside(s, i)
    else exists open | 0 <= open < i ::
           Encloses(s, open, i) && (m == Escaped <==> Backslashes(s, open + 1, i) % 2 == 1)
  }

  lemma ShorterUnclosed(s: string, from: nat, i: nat, j: nat)
    requires from <= i <= j <= |s| && Unclosed(s, from, j)
    ensures Unclosed(s, from, i)
  {}

  lemma LongerClosed(s: string, from: nat, i: nat, j: nat)
    requires from <= i <= j <= |s| && !Unclosed(s, from, i)
    ensures !Unclosed(s, from, j)
  {}

  /** What follows the opening quote is not outside. */
  lemma InsideIsNotOutside(s: string, open: nat, b: nat, i: nat)
    requires open < b <= i <= |s| && Encloses(s, open, i)
    ensures !IsOutside(s, b)
  {
    ShorterUnclosed(s, open + 1, b, i);
    assert !HasClosed(s, open, b);
  }

  lemma StaysOutside(s: string, i: nat)
    requires i < |s| && IsOutside(s, i) && s[i] != '"'
    ensures IsOutside(s, i + 1)
  {
    var j := i + 1;
    forall open | 0 <= open < j && s[open] == '"' && IsOutside(s, open) ensures HasClosed(s, open, j) {
      assert HasClosed(s, open, i);
      LongerClosed(s, open + 1, i, j);
    }
  }

  /** An unescaped quote ends the literal. */
  lemma Closes(s: string, open: nat, i: nat)
    requires open < i < |s| && Encloses(s, open, i) && s[i] == '"' && Backslashes(s, open + 1, i) % 2 == 0
    ensures IsOutside(s, i + 1)
  {
    var j := i + 1;
    forall b | open < b <= i ensures !IsOutside(s, b) {
      InsideIsNotOutside(s, open, b, i);
    }
    forall other | 0 <= other < j && s[other] == '"' && IsOutside(s, other) ensures HasClosed(s, other, j) {
      if other < open {
        assert HasClosed(s, other, open);
        LongerClosed(s, other + 1, open, j);
      }
    }
  }

  /** Any other character stays in it. */
  lemma StaysInside(s: string, open: nat, i: nat)
    requires open < i < |s| && Encloses(s, open, i) && (s[i] == '"' ==> Backslashes(s, open + 1, i) % 2 == 1)
    ensures Encloses(s, open, i + 1)
    ensures Backslashes(s, open + 1, i + 1) == if s[i] == '\\' then Backslashes(s, open + 1, i) + 1 else 0
  {}

  lemma AgreesStep(s: string, i: nat, m: Mode)
    requires i < |s| && Agrees(s, i, m)
    ensures Agrees(s, i + 1, Advance(m, s[i]))
  {
    if m == Outside {
      if s[i] == '"' {
        assert Encloses(s, i, i + 1);
      } else {
        StaysOutside(s, i);
      }
    } else {
      var open :| 0 <= open < i && Encloses(s, open, i) && (m == Escaped <==> Backslashes(s, open + 1, i) % 2 == 1);
      if m == InString && s[i] == '"' {
        Closes(s, open, i);
      } else {
        StaysInside(s, open, i);
      }
    }
  }

  /** The scanner's two flags say exactly whether a position lies outside string literals. */
  lemma {:induction false} ScanAgrees(s: string, i: nat)
    requires i <= |s|
    ensures Agrees(s, i, Scan(Outside, s[..i]))
  {
    if i > 0 {
      ScanAgrees(s, i - 1);
      AgreesStep(s, i - 1, Scan(Outside, s[..i - 1]));
      SpacedSnoc(Outside, s[..i - 1], s[i - 1]);
      assert s[..i] == s[..i - 1] + [s[i - 1]];
    }
  }

  lemma OutsideIffMode(s: string, i: nat)
    requires i <= |s|
    ensures Scan(Outside, s[..i]) == Outside <==> IsOutside(s, i)
  {
    ScanAgrees(s, i);
    if Scan(Outside, s[..i]) != Outside {
      var open :| 0 <= open < i && Encloses(s, open, i);
      assert !HasClosed(s, open, i);
    }
  }

  lemma {:induction false} SpacedIsWithSpaces(s: string, n: nat)
    requires n <= |s|
    ensures Spaced(Outside, s[..n]) == WithSpaces(s, n)
  {
    if n > 0 {
      SpacedIsWithSpaces(s, n - 1);
      SpacedSnoc(Outside, s[..n - 1], s[n - 1]);
      assert s[..n] == s[..n - 1] + [s[n - 1]];
      OutsideIffMode(s, n - 1);
    }
  }

  // ---------- the inserted spaces, and nothing else ----------

  /** Removes the space behind each comma or colon that stands outside strings, scanning its own input. */
  function Despaced(m: Mode, s: string): string
    decreases |s|
  {
    if s == "" then ""
    else if Separates(m, s[0]) && |s| > 1 && s[1] == ' ' then [s[0]] + Despaced(m, s[2..])
    else [s[0]] + Despaced(Advance(m, s[0]), s[1..])
  }

  /** Every comma or colon outside strings is followed by a space. */
  predicate WellSpaced(m: Mode, s: string)
    decreases |s|
  {
    if s == "" then true
    else if Separates(m, s[0]) then |s| > 1 && s[1] == ' ' && WellSpaced(m, s[2..])
    else WellSpaced(Advance(m, s[0]), s[1..])
  }

  /** The characters that belong to string literals, delimiters and escapes included. */
  function Literals(m: Mode, s: string): string
    decreases |s|
  {
    if s == "" then ""
    else (if m != Outside || s[0] == '"' then [s[0]] else "") + Literals(Advance(m, s[0]), s[1..])
  }

  function Separators(m: Mode, s: string): nat
    decreases |s|
  {
    if s == "" then 0 else (if Separates(m, s[0]) then 1 else 0) + Separators(Advance(m, s[0]), s[1..])
  }

  lemma {:induction false} SpacedUnfold(m: Mode, s: string)
    requires s != ""
    ensures var t := Spaced(m, s); var rest := Spaced(Advance(m, s[0]), s[1..]);
            t != "" && t[0] == s[0]
            && if Separates(m, s[0]) then t[1..] == " " + rest && |t| > 1 && t[1] == ' ' && t[2..] == rest
               else t[1..] == rest
  {
    var t, rest := Spaced(m, s), Spaced(Advance(m, s[0]), s[1..]);
    if Separates(m, s[0]) {
      assert t == [s[0], ' '] + rest;
    } else {
      assert t == [s[0]] + rest;
    }
  }

  lemma DespacedCons(m: Mode, c: char, rest: string)
    ensures Despaced(m, SpacedChar(m, c) + rest) == [c] + Despaced(Advance(m, c), rest)
  {
    var t := SpacedChar(m, c) + rest;
    if Separates(m, c) {
      assert t[2..] == rest;
    } else {
      assert t[1..] == rest;
    }
  }

  /** Deleting exactly the inserted spaces recovers the input. */
  lemma {:induction false} SpacingIsUndone(m: Mode, s: string)
    ensures Despaced(m, Spaced(m, s)) == s
    decreases |s|
  {
    if s != "" {
      SpacingIsUndone(Advance(m, s[0]), s[1..]);
      DespacedCons(m, s[0], Spaced(Advance(m, s[0]), s[1..]));
      assert s == [s[0]] + s[1..];
    }
  }

  /** Rescanning the output ends in the same mode, its string literals are those of the input, and it is longer by
      one character per separator. */
  lemma {:induction false} SpacingKeepsStrings(m: Mode, s: string)
    ensures Scan(m, Spaced(m, s)) == Scan(m, s)
    ensures Literals(m, Spaced(m, s)) == Literals(m, s)
    ensures |Spaced(m, s)| == |s| + Separators(m, s)
    decreases |s|
  {
    if s != "" {
      var next := Advance(m, s[0]);
      SpacedUnfold(m, s);
      SpacingKeepsStrings(next, s[1..]);
      if Separates(m, s[0]) {
        var rest := Spaced(next, s[1..]);
        assert (" " + rest)[0] == ' ' && (" " + rest)[1..] == rest;
        assert Scan(m, " " + rest) == Scan(m, rest) && Literals(m, " " + rest) == Literals(m, rest);
      }
    }
  }

  /** The outputs are exactly the well-spaced texts, and each comes from one input only. */
  lemma {:induction false} OutputsAreWellSpaced(m: Mode, s: string)
    ensures WellSpaced(m, Spaced(m, s))
    decreases |s|
  {
    if s != "" {
      SpacedUnfold(m, s);
      OutputsAreWellSpaced(Advance(m, s[0]), s[1..]);
    }
  }

  lemma {:induction false} WellSpacedAreOutputs(m: Mode, t: string)
    requires WellSpaced(m, t)
    ensures Spaced(m, Despaced(m, t)) == t
    decreases |t|
  {
    if t != "" {
      if Separates(m, t[0]) {
        WellSpacedAreOutputs(m, t[2..]);
        assert t == [t[0]] + " " + t[2..];
        assert Despaced(m, t)[1..] == Despaced(m, t[2..]);
      } else {
        WellSpacedAreOutputs(Advance(m, t[0]), t[1..]);
        assert t == [t[0]] + t[1..];
        assert Despaced(m, t)[1..] == Despaced(Advance(m, t[0]), t[1..]);
      }
    }
  }
}
