/** The short text forms of result codes (`strResult`, `str_result`). */
module ResultText {
  import opened Common

  predicate Deduced(r: Result)
  {
    r == DeducedLoss || r == DeducedDraw || r == DeducedWin
  }

  /** `strResult`: one letter for a game result, "D" and a letter for a deduced one, "N" for none. */
  function StrResult(r: Result): (s: string)
    ensures |s| == (if Deduced(r) then 2 else 1)
    ensures s == "N" <==> r == NoResult
  {
    if r == Loss then "L"
    else if r == Draw then "D"
    else if r == Win then "W"
    else if r == DeducedLoss then "DL"
    else if r == DeducedDraw then "DD"
    else if r == DeducedWin then "DW"
    else "N"
  }

  /** The game result a deduced result stands for. */
  function Undeduced(r: Result): Result
  {
    match r
    case DeducedLoss => Loss
    case DeducedDraw => Draw
    case DeducedWin => Win
    case _ => r
  }

  /** A deduced result is written as "D" followed by the text of the result it deduces. */
  lemma DeducedText(r: Result)
    requires Deduced(r)
    ensures StrResult(r) == "D" + StrResult(Undeduced(r))
  {
  }

  /** Reading a result text back; `None` for a text no result has. */
  function ParseResult(s: string): (r: Option<Result>)
    ensures forall x :: StrResult(x) == s <==> r == Some(x)
  {
    if s == "L" then Some(Loss)
    else if s == "D" then Some(Draw)
    else if s == "W" then Some(Win)
    else if s == "DL" then Some(DeducedLoss)
    else if s == "DD" then Some(DeducedDraw)
    else if s == "DW" then Some(DeducedWin)
    else if s == "N" then Some(NoResult)
    else None
  }

  /** The seven result codes have seven different texts. */
  lemma StrResultInjective(a: Result, b: Result)
    requires StrResult(a) == StrResult(b)
    ensures a == b
  {
    assert ParseResult(StrResult(a)) == Some(a);
  }
}

/** `print_line`: the name of one of the 102 line indices the rules engine uses. */
module LineNames {
  import opened Common

  /** Row and column groups, 12 indices each: four rows or columns of three tiers. */
  const RowColNames: seq<string> := ["RL", "RR", "RB", "CU", "CD", "CB"]
  /** Diagonal groups, 3 indices each (one per tier), from index 72 on. */
  const DiagNames: seq<string> := ["D0U", "D0D", "D0B", "D1U", "D1D", "D1B", "S0", "S1", "S2", "S3"]

  /** The tier suffix: base, column, capital. */
  function TierChar(t: int): (c: char)
    requires 0 <= t < 3
    ensures c in "BCA"
  {
    if t == 0 then 'B' else if t == 1 then 'C' else 'A'
  }

  function GroupName(line: nat): string
  {
    if line < 12 then "RL"
    else if line < 24 then "RR"
    else if line < 36 then "RB"
    else if line < 48 then "CU"
    else if line < 60 then "CD"
    else if line < 72 then "CB"
    else if line < 75 then "D0U"
    else if line < 78 then "D0D"
    else if line < 81 then "D0B"
    else if line < 84 then "D1U"
    else if line < 87 then "D1D"
    else if line < 90 then "D1B"
    else if line < 93 then "S0"
    else if line < 96 then "S1"
    else if line < 99 then "S2"
    else "S3"
  }

  /** The text `print_line` writes: group, row or column number for the first 72, tier. */
  function PrintLine(line: nat): (s: string)
    ensures line < 72 ==> s == RowColNames[line / 12] + [DigitChar((line % 12) / 3), TierChar(line % 3)]
    ensures 72 <= line < 102 ==> s == DiagNames[(line - 72) / 3] + [TierChar(line % 3)]
    ensures 102 <= line ==> s == "S3" + [TierChar(line % 3)]
  {
    var g := GroupName(line);
    (if line < 72 then g + [DigitChar((line % 12) / 3)] else g) + [TierChar(line % 3)]
  }

  /** Index `G*12 + i*3 + t` (row or column group G, line i, tier t) is named G, i, t. */
  lemma {:induction false} RowColLineName(grp: int, i: int, t: int)
    requires 0 <= grp < 6 && 0 <= i < 4 && 0 <= t < 3
    ensures PrintLine(grp * 12 + i * 3 + t) == RowColNames[grp] + [DigitChar(i), TierChar(t)]
  {
    var line := grp * 12 + i * 3 + t;
    assert line / 12 == grp && line % 12 == i * 3 + t;
    assert (i * 3 + t) / 3 == i && line % 3 == t;
  }

  /** Index `72 + G*3 + t` (diagonal group G, tier t) is named G, t. */
  lemma {:induction false} DiagLineName(grp: int, t: int)
    requires 0 <= grp < 10 && 0 <= t < 3
    ensures PrintLine(72 + grp * 3 + t) == DiagNames[grp] + [TierChar(t)]
  {
    var line := 72 + grp * 3 + t;
    assert (line - 72) / 3 == grp && line % 3 == t;
  }

  function TierOf(c: char): (t: int)
    ensures c in "BCA" ==> 0 <= t < 3 && TierChar(t) == c
  {
    if c == 'B' then 0 else if c == 'C' then 1 else 2
  }

  /** The position of a name in a group list, -1 if absent. */
  function IndexIn(names: seq<string>, name: string): (k: int)
    ensures -1 <= k < |names|
    ensures k >= 0 ==> names[k] == name && forall j | k < j < |names| :: names[j] != name
    ensures k < 0 ==> name !in names
  {
    if |names| == 0 then -1
    else if names[|names| - 1] == name then |names| - 1
    else IndexIn(names[..|names| - 1], name)
  }

  /** The group lists hold distinct names. */
  lemma NamesDistinct()
    ensures forall a, b | 0 <= a < b < |RowColNames| :: RowColNames[a] != RowColNames[b]
    ensures forall a, b | 0 <= a < b < |DiagNames| :: DiagNames[a] != DiagNames[b]
    ensures forall a | 0 <= a < |RowColNames| :: |RowColNames[a]| == 2 && RowColNames[a][0] in "RC"
    ensures forall b | 0 <= b < |DiagNames| :: |DiagNames[b]| >= 2 && DiagNames[b][0] in "DS"
  {
  }

  /** Reading a line name back into its index. */
  function ParseLine(s: string): (r: Option<nat>)
  {
    if |s| == 4 && IndexIn(RowColNames, s[..2]) >= 0 && '0' <= s[2] <= '3' && s[3] in "BCA" then
      Some(IndexIn(RowColNames, s[..2]) * 12 + (s[2] as int - '0' as int) * 3 + TierOf(s[3]))
    else if 3 <= |s| <= 4 && IndexIn(DiagNames, s[..|s| - 1]) >= 0 && s[|s| - 1] in "BCA" then
      Some(72 + IndexIn(DiagNames, s[..|s| - 1]) * 3 + TierOf(s[|s| - 1]))
    else None
  }

  lemma {:induction false} RowColParses(grp: int, i: int, t: int)
    requires 0 <= grp < 6 && 0 <= i < 4 && 0 <= t < 3
    ensures ParseLine(RowColNames[grp] + [DigitChar(i), TierChar(t)]) == Some(grp * 12 + i * 3 + t)
  {
    var s := RowColNames[grp] + [DigitChar(i), TierChar(t)];
    assert s[..2] == RowColNames[grp];
    NamesDistinct();
    assert IndexIn(RowColNames, s[..2]) == grp;
  }

  lemma {:induction false} DiagParses(grp: int, t: int)
    requires 0 <= grp < 10 && 0 <= t < 3
    ensures ParseLine(DiagNames[grp] + [TierChar(t)]) == Some(72 + grp * 3 + t)
  {
    var s := DiagNames[grp] + [TierChar(t)];
    assert s[..|s| - 1] == DiagNames[grp];
    NamesDistinct();
    assert IndexIn(DiagNames, s[..|s| - 1]) == grp;
    if |s| == 4 {
      assert s[..2][0] == DiagNames[grp][0];
      assert IndexIn(RowColNames, s[..2]) < 0;
    }
  }

  /** The 102 line names are distinct: each one reads back as its own index. */
  lemma {:induction false} PrintLineParses(line: nat)
    requires line < 102
    ensures ParseLine(PrintLine(line)) == Some(line)
  {
    if line < 72 {
      var grp, i, t := line / 12, (line % 12) / 3, line % 3;
      assert line == grp * 12 + i * 3 + t;
      RowColLineName(grp, i, t);
      RowColParses(grp, i, t);
    } else {
      var grp, t := (line - 72) / 3, line % 3;
      assert line == 72 + grp * 3 + t;
      DiagLineName(grp, t);
      DiagParses(grp, t);
    }
  }
}
