/**
 * The text-producing part of GameUI: the marker shown for a cell and the
 * machine-readable position list ("[v0,v1,...,v8]\n") that
 * printPositionList writes.  Each printer is paired with the parser that
 * reads its output back, and the round trip is proved.
 */
module GameView {
  import opened Wrappers
  import BoardLogic

  // ---------------------------------------------------------------------
  // Decimal text of an integer, as std::to_string writes it.

  function DigitChar(d: nat): (c: char)
    requires d < 10
    ensures '0' <= c <= '9'
  {
    ('0' as int + d) as char
  }

  function DigitValue(c: char): (d: nat)
    requires '0' <= c <= '9'
    ensures d < 10 && DigitChar(d) == c
  {
    (c as int - '0' as int) as nat
  }

  predicate IsDigit(c: char) {
    '0' <= c <= '9'
  }

  predicate AllDigits(s: string) {
    forall j :: 0 <= j < |s| ==> IsDigit(s[j])
  }

  /** The shortest decimal text of `n`. */
  function NatToString(n: nat): (s: string)
    ensures |s| >= 1 && AllDigits(s)
    ensures n >= 10 <==> |s| >= 2
  {
    if n < 10 then [DigitChar(n)] else NatToString(n / 10) + [DigitChar(n % 10)]
  }

  /** A minus sign followed by the magnitude for negatives, as to_string does. */
  function IntToString(x: int): (s: string)
    ensures |s| >= 1
    ensures s[0] == '-' <==> x < 0
  {
    if x < 0 then "-" + NatToString(-x) else NatToString(x)
  }

  /** The text of an integer never holds the list separator. */
  lemma IntToStringHasNoComma(x: int)
    ensures ',' !in IntToString(x)
  {
    var s := IntToString(x);
    var digits := NatToString(if x < 0 then -x else x);
    assert x < 0 ==> s == "-" + digits;
    assert forall j :: 0 <= j < |digits| ==> digits[j] != ',';
  }

  /** Reads a non-empty run of decimal digits. */
  function ParseNat(s: string): (r: Option<nat>)
    ensures r.Some? <==> |s| >= 1 && AllDigits(s)
  {
    if |s| == 0 || !IsDigit(s[|s| - 1]) then None
    else if |s| == 1 then Some(DigitValue(s[0]))
    else match ParseNat(s[..|s| - 1])
      case None => None
      case Some(high) => Some(high * 10 + DigitValue(s[|s| - 1]))
  }

  /** Reads an optionally negative decimal integer. */
  function ParseInt(s: string): (r: Option<int>)
  {
    if |s| >= 1 && s[0] == '-' then
      match ParseNat(s[1..])
      case None => None
      case Some(n) => Some(0 - n)
    else
      match ParseNat(s)
      case None => None
      case Some(n) => Some(n as int)
  }

  lemma {:induction false} ParseNatToString(n: nat)
    ensures ParseNat(NatToString(n)) == Some(n)
  {
    if n >= 10 {
      var s := NatToString(n);
      assert s[..|s| - 1] == NatToString(n / 10);
      ParseNatToString(n / 10);
    }
  }

  /** Every integer's text reads back as that integer. */
  lemma ParseIntToString(x: int)
    ensures ParseInt(IntToString(x)) == Some(x)
  {
    if x < 0 {
      ParseNegative(-x);
    } else {
      var s := NatToString(x);
      ParseNatToString(x);
      assert IsDigit(s[0]);
    }
  }

  lemma ParseNegative(n: nat)
    requires n > 0
    ensures ParseInt("-" + NatToString(n)) == Some(0 - n)
  {
    var s := "-" + NatToString(n);
    assert s[1..] == NatToString(n);
    ParseNatToString(n);
  }

  /** Distinct integers have distinct texts. */
  lemma IntToStringInjective(x: int, y: int)
    requires IntToString(x) == IntToString(y)
    ensures x == y
  {
    ParseIntToString(x);
    ParseIntToString(y);
  }

  // ---------------------------------------------------------------------
  // The comma-separated list.

  /** The values' texts separated by commas. */
  function Join(xs: seq<int>): (s: string)
    ensures |s| == 0 <==> |xs| == 0
  {
    if |xs| == 0 then ""
    else if |xs| == 1 then IntToString(xs[0])
    else IntToString(xs[0]) + "," + Join(xs[1..])
  }

  lemma {:induction false} JoinAppend(xs: seq<int>, x: int)
    requires |xs| >= 1
    ensures Join(xs + [x]) == Join(xs) + "," + IntToString(x)
  {
    var ys := xs + [x];
    if |xs| == 1 {
      assert ys[1..] == [x];
    } else {
      assert ys[1..] == xs[1..] + [x];
      JoinAppend(xs[1..], x);
      calc {
        Join(ys);
        IntToString(xs[0]) + "," + Join(xs[1..] + [x]);
        IntToString(xs[0]) + "," + (Join(xs[1..]) + "," + IntToString(x));
        (IntToString(xs[0]) + "," + Join(xs[1..])) + "," + IntToString(x);
      }
    }
  }

  /** The pieces of `s` between commas, from left to right. */
  function SplitFields(s: string): (r: seq<string>)
    ensures |r| >= 1
  {
    if |s| == 0 then [""]
    else if s[0] == ',' then [""] + SplitFields(s[1..])
    else
      var rest := SplitFields(s[1..]);
      [[s[0]] + rest[0]] + rest[1..]
  }

  lemma {:induction false} SplitFieldsNoComma(a: string)
    requires ',' !in a
    ensures SplitFields(a) == [a]
  {
    if |a| > 0 {
      SplitFieldsNoComma(a[1..]);
      assert [a[0]] + a[1..] == a;
    }
  }

  lemma {:induction false} SplitFieldsComma(a: string, b: string)
    requires ',' !in a
    ensures SplitFields(a + "," + b) == [a] + SplitFields(b)
  {
    var s := a + "," + b;
    if |a| == 0 {
      assert s == "," + b;
      assert s[1..] == b;
    } else {
      assert s[1..] == a[1..] + "," + b;
      SplitFieldsComma(a[1..], b);
      assert [a[0]] + a[1..] == a;
    }
  }

  /** Reads every field as an integer; fails if any field does not read. */
  function ParseFields(fields: seq<string>): (r: Option<seq<int>>)
    ensures r.Some? ==> |r.value| == |fields|
  {
    if |fields| == 0 then Some([])
    else match (ParseInt(fields[0]), ParseFields(fields[1..]))
      case (Some(x), Some(rest)) => Some([x] + rest)
      case _ => None
  }

  lemma {:induction false} ParseJoin(xs: seq<int>)
    requires |xs| >= 1
    ensures ParseFields(SplitFields(Join(xs))) == Some(xs)
  {
    var head := IntToString(xs[0]);
    ParseIntToString(xs[0]);
    IntToStringHasNoComma(xs[0]);
    if |xs| == 1 {
      assert Join(xs) == head;
      SplitFieldsNoComma(head);
      assert [head][1..] == [];
      assert [xs[0]] + [] == xs;
    } else {
      var tail := Join(xs[1..]);
      assert Join(xs) == head + "," + tail;
      SplitFieldsComma(head, tail);
      assert ([head] + SplitFields(tail))[1..] == SplitFields(tail);
      ParseJoin(xs[1..]);
      assert [xs[0]] + xs[1..] == xs;
    }
  }

  /** The text printPositionList writes for the values `xs`. */
  function PositionListText(xs: seq<int>): (s: string)
    ensures |s| == |Join(xs)| + 3
    ensures s[0] == '[' && s[|s| - 2] == ']' && s[|s| - 1] == '\n'
  {
    "[" + Join(xs) + "]\n"
  }

  /** Reads a position list back: "[", comma-separated integers, "]\n". */
  function ParsePositionList(s: string): (r: Option<seq<int>>)
  {
    if |s| < 3 || s[0] != '[' || s[|s| - 2..] != "]\n" then None
    else
      var inner := s[1..|s| - 2];
      if |inner| == 0 then Some([]) else ParseFields(SplitFields(inner))
  }

  /** A printed position list reads back as exactly the values printed. */
  lemma PositionListRoundTrip(xs: seq<int>)
    ensures ParsePositionList(PositionListText(xs)) == Some(xs)
  {
    var s := PositionListText(xs);
    assert s[|s| - 2..] == "]\n";
    assert s[1..|s| - 2] == Join(xs);
    if |xs| >= 1 {
      ParseJoin(xs);
      assert |Join(xs)| >= 1;
    }
  }

  /** One pass of printPositionList's loop extends the list by the next value. */
  lemma ListStep(xs: seq<int>, i: nat, before: string)
    requires i < |xs| && before == "[" + Join(xs[..i])
    ensures (if i > 0 then before + "," else before) + IntToString(xs[i]) == "[" + Join(xs[..i + 1])
  {
    assert xs[..i + 1] == xs[..i] + [xs[i]];
    if i == 0 {
      assert Join(xs[..1]) == IntToString(xs[0]);
    } else {
      JoinAppend(xs[..i], xs[i]);
      assert before + "," + IntToString(xs[i]) == "[" + (Join(xs[..i]) + "," + IntToString(xs[i]));
    }
  }

  // ---------------------------------------------------------------------
  // The UI object.  Its fields are fixed by the constructor and never
  // change, so it is a value.

  datatype GameUI = GameUI(player1Marker: char, player2Marker: char, amountOfPositions: int)
  {
    /** The character shown for a cell holding `player`. */
    function PlayerMarker(player: int): (c: char)
      ensures c == player1Marker || c == player2Marker || c == '-'
    {
      if player == BoardLogic.PlayerValue(BoardLogic.Player1) then player1Marker
      else if player == BoardLogic.PlayerValue(BoardLogic.Player2) then player2Marker
      else '-'
    }

    /** Markers that differ from each other and from '-' tell the cell apart. */
    predicate DistinctMarkers() {
      player1Marker != player2Marker && player1Marker != '-' && player2Marker != '-'
    }

    /** Which cell value a shown character stands for. */
    function MarkerValue(c: char): (v: int)
      ensures BoardLogic.IsCell(v)
    {
      if c == player1Marker then BoardLogic.PlayerValue(BoardLogic.Player1)
      else if c == player2Marker then BoardLogic.PlayerValue(BoardLogic.Player2)
      else 0
    }

    /** With distinct markers, the shown character determines the cell. */
    lemma MarkerRoundTrip(v: int)
      requires DistinctMarkers() && BoardLogic.IsCell(v)
      ensures MarkerValue(PlayerMarker(v)) == v
    {
    }

    /** How many cells printPositionList lists: none when amountOfPositions is negative. */
    function ListedCount(): nat {
      if amountOfPositions < 0 then 0 else amountOfPositions
    }

    /** Builds the string printPositionList writes for the first amountOfPositions cells. */
    method PrintPositionList(currentPositions: seq<int>) returns (output: string)
      requires amountOfPositions <= |currentPositions|
      ensures output == PositionListText(currentPositions[..ListedCount()])
    {
      output := "[";
      var i := 0;
      while i < amountOfPositions
        invariant 0 <= i <= ListedCount()
        invariant output == "[" + Join(currentPositions[..i])
      {
        ghost var before := output;
        if i > 0 {
          output := output + ",";
        }
        output := output + IntToString(currentPositions[i]);
        ListStep(currentPositions, i, before);
        i := i + 1;
      }
      output := output + "]\n";
    }
  }
}
