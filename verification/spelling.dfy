// What numbers written in decimal are read as: by the version parser, whatever
// stands between them, and by the unsigned integer parser of the conditions.
module Spelling {
  import opened Basics
  import opened Versions
  import C = Conditions

  predicate DigitFree(s: string) { forall i :: 0 <= i < |s| ==> !('0' <= s[i] <= '9') }

  predicate AllDigits(s: string) { forall i :: 0 <= i < |s| ==> '0' <= s[i] <= '9' }

  /** The decimal digits of a number. */
  function Digits(n: nat): (s: string)
    ensures s != "" && AllDigits(s)
  {
    if n < 10 then [('0' as int + n) as char] else Digits(n / 10) + [('0' as int + n % 10) as char]
  }

  function Zeros(n: nat): (s: string)
    ensures |s| == n && AllDigits(s)
  {
    seq(n, _ => '0')
  }

  lemma {:induction false} DecimalOfDigits(n: nat, zeros: nat)
    ensures Decimal(Zeros(zeros) + Digits(n)) == n
  {
    var text := Zeros(zeros) + Digits(n);
    if n < 10 {
      assert text[..|text| - 1] == Zeros(zeros);
      DecimalOfZeros(zeros);
    } else {
      DecimalOfDigits(n / 10, zeros);
      assert text[..|text| - 1] == Zeros(zeros) + Digits(n / 10);
    }
  }

  lemma {:induction false} DecimalOfZeros(n: nat)
    ensures Decimal(Zeros(n)) == 0
  {
    if n > 0 {
      assert Zeros(n)[..n - 1] == Zeros(n - 1);
      DecimalOfZeros(n - 1);
    }
  }

  // ---- versions ------------------------------------------------------------------

  /** A number as it is written: after some text, with leading zeros. */
  datatype Written = Written(before: string, zeros: nat, number: nat)

  function Run(w: Written): string { Zeros(w.zeros) + Digits(w.number) }

  function Spelled(ws: seq<Written>, tail: string): string {
    if ws == [] then tail else ws[0].before + Run(ws[0]) + Spelled(ws[1..], tail)
  }

  /** Numbers are told apart by text without a digit. */
  predicate Apart(ws: seq<Written>, tail: string) {
    && DigitFree(tail)
    && (forall i :: 0 <= i < |ws| ==> DigitFree(ws[i].before))
    && (forall i :: 1 <= i < |ws| ==> ws[i].before != "")
  }

  lemma {:induction false} RunsAfterText(before: string, text: string)
    requires DigitFree(before)
    ensures DigitRuns(before + text) == DigitRuns(text)
  {
    if before == "" {
      assert before + text == text;
    } else {
      assert (before + text)[1..] == before[1..] + text;
      RunsAfterText(before[1..], text);
    }
  }

  lemma {:induction false} RunThenText(run: string, text: string)
    requires AllDigits(run) && (text == "" || DigitFree(text[..1]))
    ensures RunLength(run + text) == |run|
    ensures run != "" ==> DigitRuns(run + text) == [run] + DigitRuns(text)
  {
    if run == "" {
      assert run + text == text;
      assert text != "" ==> text[..1][0] == text[0];
    } else {
      assert (run + text)[1..] == run[1..] + text;
      RunThenText(run[1..], text);
      assert (run + text)[..|run|] == run && (run + text)[|run|..] == text;
    }
  }

  lemma {:induction false} RunsOfSpelled(ws: seq<Written>, tail: string)
    requires Apart(ws, tail)
    ensures |DigitRuns(Spelled(ws, tail))| == |ws|
    ensures forall i :: 0 <= i < |ws| ==> DigitRuns(Spelled(ws, tail))[i] == Run(ws[i])
  {
    if ws == [] {
      RunsAfterText(tail, "");
      assert tail + "" == tail;
    } else {
      var rest := Spelled(ws[1..], tail);
      RunsOfSpelled(ws[1..], tail);
      StartsWithText(ws[1..], tail);
      RunThenText(Run(ws[0]), rest);
      RunsAfterText(ws[0].before, Run(ws[0]) + rest);
      assert Spelled(ws, tail) == ws[0].before + (Run(ws[0]) + rest);
    }
  }

  lemma StartsWithText(ws: seq<Written>, tail: string)
    requires Apart(ws, tail) && (ws != [] ==> ws[0].before != "")
    ensures var s := Spelled(ws, tail); s == "" || DigitFree(s[..1])
  {}

  /**
   * A version is read as the first eight of the numbers in its text, whatever separates them; a number past 64 bits counts as
   * the largest. A text of more than 128 characters, or without a number, is no version.
   */
  lemma VersionIsItsNumbers(ws: seq<Written>, tail: string)
    requires Apart(ws, tail)
    ensures var text := Spelled(ws, tail); var version := Parse(text);
      if ws == [] || |text| > 128 then version == Version("", [])
      else
        && version.raw == text
        && |version.components| == (if |ws| < 8 then |ws| else 8)
        && forall i :: 0 <= i < |version.components| ==>
             version.components[i] == if ws[i].number < 0x1_0000_0000_0000_0000 then ws[i].number else 0xFFFF_FFFF_FFFF_FFFF
  {
    hide DigitRuns;
    RunsOfSpelled(ws, tail);
    if ws != [] { NotEmpty(ws, tail); }
    forall i | 0 <= i < |ws| ensures Decimal(Run(ws[i])) == ws[i].number { DecimalOfDigits(ws[i].number, ws[i].zeros); }
  }

  lemma {:induction false} RunIsNumber(run: string) returns (zeros: nat, n: nat)
    requires run != "" && AllDigits(run)
    ensures run == Zeros(zeros) + Digits(n)
  {
    var front, digit := run[..|run| - 1], run[|run| - 1] as int - '0' as int;
    if front == "" {
      return 0, digit;
    }
    zeros, n := RunIsNumber(front);
    if n == 0 {
      assert run == Zeros(zeros + 1) + Digits(digit);
      return zeros + 1, digit;
    }
    assert (10 * n + digit) / 10 == n && (10 * n + digit) % 10 == digit;
    assert run == Zeros(zeros) + Digits(10 * n + digit);
    n := 10 * n + digit;
  }

  /** Every text is spelled from its numbers, so the result above covers all of them. */
  lemma {:induction false} EveryTextIsSpelled(text: string) returns (ws: seq<Written>, tail: string)
    ensures Apart(ws, tail) && Spelled(ws, tail) == text
    decreases |text|
  {
    if text == "" { return [], ""; }
    if !('0' <= text[0] <= '9') {
      ws, tail := EveryTextIsSpelled(text[1..]);
      ws, tail := AfterCharacter(text, ws, tail);
    } else {
      var n := RunLength(text);
      RunIsDigits(text);
      var zeros, number := RunIsNumber(text[..n]);
      ws, tail := EveryTextIsSpelled(text[n..]);
      if ws != [] && ws[0].before == "" { StartsWithoutDigit(ws, tail); }
      ws := AfterNumber(text, n, ws, tail, zeros, number);
    }
  }

  lemma AfterCharacter(text: string, ws: seq<Written>, tail: string) returns (more: seq<Written>, end: string)
    requires text != "" && !('0' <= text[0] <= '9') && Apart(ws, tail) && Spelled(ws, tail) == text[1..]
    ensures Apart(more, end) && Spelled(more, end) == text
  {
    assert text == [text[0]] + text[1..];
    if ws == [] { return [], [text[0]] + tail; }
    var w := ws[0].(before := [text[0]] + ws[0].before);
    assert ([w] + ws[1..])[1..] == ws[1..];
    assert Spelled([w] + ws[1..], tail) == [text[0]] + Spelled(ws, tail);
    return [w] + ws[1..], tail;
  }

  lemma AfterNumber(text: string, n: nat, ws: seq<Written>, tail: string, zeros: nat, number: nat) returns (more: seq<Written>)
    requires n <= |text| && text[..n] == Zeros(zeros) + Digits(number) && Apart(ws, tail) && Spelled(ws, tail) == text[n..]
    requires ws != [] ==> ws[0].before != ""
    ensures Apart(more, tail) && Spelled(more, tail) == text
  {
    var w := Written("", zeros, number);
    assert ([w] + ws)[1..] == ws;
    assert text == text[..n] + text[n..];
    return [w] + ws;
  }

  lemma {:induction false} RunIsDigits(text: string)
    ensures AllDigits(text[..RunLength(text)])
    ensures RunLength(text) < |text| ==> !IsDigit(text[RunLength(text)])
  {
    if text != "" && IsDigit(text[0]) {
      RunIsDigits(text[1..]);
      var n := RunLength(text);
      forall i | 0 <= i < n ensures IsDigit(text[i]) {
        if i > 0 { assert text[i] == text[1..][..n - 1][i - 1]; }
      }
    }
  }

  lemma StartsWithoutDigit(ws: seq<Written>, tail: string)
    requires ws != [] && ws[0].before == ""
    ensures Spelled(ws, tail) != "" && IsDigit(Spelled(ws, tail)[0])
  {
    assert Run(ws[0])[0] == Spelled(ws, tail)[0];
  }

  lemma NotEmpty(ws: seq<Written>, tail: string)
    requires ws != []
    ensures Spelled(ws, tail) != ""
  {}

  // ---- unsigned integers ------------------------------------------------------------

  predicate Blank(s: string) {
    forall i :: 0 <= i < |s| ==> s[i] == ' ' || s[i] == '\t' || s[i] == '\n' || s[i] == 11 as char || s[i] == 12 as char || s[i] == '\r'
  }

  lemma {:induction false} BlanksAreSkipped(blanks: string, text: string)
    requires Blank(blanks) && (text == "" || !Blank(text[..1]))
    ensures C.SkipSpace(blanks + text) == text
  {
    if blanks == "" {
      assert blanks + text == text;
      assert text != "" ==> text[..1][0] == text[0];
    } else {
      assert (blanks + text)[1..] == blanks[1..] + text;
      BlanksAreSkipped(blanks[1..], text);
    }
  }

  /**
   * An unsigned number is read after blanks and a sign, up to the first other character, as long as it fits 64 bits; after a
   * minus it is taken modulo 2^64.
   */
  lemma NumberIsRead(blanks: string, sign: string, zeros: nat, n: nat, tail: string)
    requires Blank(blanks) && (sign == "" || sign == "+" || sign == "-") && (tail == "" || DigitFree(tail[..1]))
    ensures var read := C.ParseU64(blanks + (sign + (Zeros(zeros) + Digits(n) + tail)));
      if n >= 0x1_0000_0000_0000_0000 then read == None
      else if sign == "-" && n > 0 then read == Some(0x1_0000_0000_0000_0000 - n)
      else read == Some(n)
  {
    hide C.ParseU64, C.SkipSpace, Blank, DigitFree, RunLength, Decimal;
    var run := Zeros(zeros) + Digits(n);
    SignComesFirst(sign, run, tail);
    BlanksAreSkipped(blanks, sign + (run + tail));
    RunThenText(run, tail);
    assert (run + tail)[..|run|] == run;
    DecimalOfDigits(n, zeros);
    ReadAfterSign(blanks + (sign + (run + tail)), sign, run + tail, n);
  }

  lemma ReadAfterSign(text: string, sign: string, u: string, n: nat)
    requires C.SkipSpace(text) == sign + u && u != "" && (sign == "" || sign == "+" || sign == "-")
    requires sign == "" ==> u[0] != '+' && u[0] != '-'
    requires RunLength(u) > 0 && Decimal(u[..RunLength(u)]) == n
    ensures C.ParseU64(text) ==
      if n > MaxU64 then None else if sign == "-" then Some((MaxU64 + 1 - n) % (MaxU64 + 1)) else Some(n)
  {
    hide C.SkipSpace, RunLength, Decimal;
    var t := C.SkipSpace(text);
    if sign == "" { assert t == u; } else { assert t[0] == sign[0] && t[1..] == u; }
  }

  lemma SignComesFirst(sign: string, run: string, tail: string)
    requires (sign == "" || sign == "+" || sign == "-") && run != "" && AllDigits(run)
    ensures var signed := sign + (run + tail);
      && signed != "" && !Blank(signed[..1])
      && (run + tail)[0] != '-' && (run + tail)[0] != '+'
  {
    var signed := sign + (run + tail);
    assert signed[..1][0] == signed[0];
    if sign == "" { assert signed[0] == run[0]; } else { assert signed[0] == sign[0]; }
  }

  /** Without a digit where the number should start nothing is read. */
  lemma NothingIsRead(blanks: string, sign: string, tail: string)
    requires Blank(blanks) && (sign == "" || sign == "+" || sign == "-") && (tail == "" || DigitFree(tail[..1]))
    requires sign == "" && tail != "" ==> !Blank(tail[..1]) && tail[0] != '-' && tail[0] != '+'
    ensures C.ParseU64(blanks + sign + tail) == None
  {
    var signed := sign + tail;
    assert blanks + sign + tail == blanks + signed;
    assert signed != "" ==> signed[..1][0] == signed[0];
    assert sign == "" ==> signed == tail;
    BlanksAreSkipped(blanks, signed);
    assert sign != "" ==> signed[1..] == tail;
    RunThenText("", tail);
    assert "" + tail == tail;
  }
}
