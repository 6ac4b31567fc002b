/** The string helpers of the text and CSV renderers: `TxtTable::repeat_char`
    and `TxtTable::col_num_to_str` (utils.cpp:361-381) and the quoting
    `CSVTable::print_table` applies to every field (utils.cpp:414-422),
    which is the field syntax of section 2 of RFC 4180: the field is put
    in double quotes and every double quote inside it is doubled. */
module Render {
  import opened Wrappers
  import opened Strings
  import opened Sheets

  /** The character a `std::string` stores for the `int` value `k`: the
      low eight bits. It is a byte, it differs from `k` by a multiple of
      256, and a value that fits in a byte is stored unchanged. */
  function ByteChar(k: int): (c: char)
    ensures c as int < 256
    ensures (k - c as int) % 256 == 0
    ensures 0 <= k < 256 ==> c as int == k
  {
    (k % 256) as char
  }

  predicate IsUpper(c: char) { 'A' <= c <= 'Z' }

  /** `repeat_char(n, c)`: `n` copies of `c`, none when `n` is not positive. */
  method RepeatChar(n: int, c: char) returns (s: string)
    ensures |s| == if n > 0 then n else 0
    ensures forall k :: 0 <= k < |s| ==> s[k] == c
  {
    s := "";
    var i := 0;
    while i < n
      invariant 0 <= i <= (if n > 0 then n else 0) && |s| == i
      invariant forall k :: 0 <= k < |s| ==> s[k] == c
    {
      s := s + [c];
      i := i + 1;
    }
  }

  /** `col_num_to_str(n)`: the column header, one letter below 26 and two
      letters from there on. */
  function ColNumToStr(n: int): (s: string)
    ensures |s| == if n < 26 then 1 else 2
  {
    if n < 26 then [ByteChar('A' as int + n)]
    else [ByteChar('A' as int + n / 26 - 1), ByteChar('A' as int + n % 26)]
  }

  /** The column a header names: the reference definition `ColNumToStr`
      is checked against. */
  function ColumnIndex(s: string): (n: int)
    requires |s| == 1 || |s| == 2
  {
    if |s| == 1 then s[0] as int - 'A' as int
    else (s[0] as int - 'A' as int + 1) * 26 + (s[1] as int - 'A' as int)
  }

  /** The columns 0 to 701 are named by the upper-case headers `A` ... `Z`,
      `AA` ... `ZZ`, and the header gives the column back. */
  lemma ColumnRoundTrip(n: int)
    requires 0 <= n <= 701
    ensures forall k :: 0 <= k < |ColNumToStr(n)| ==> IsUpper(ColNumToStr(n)[k])
    ensures ColumnIndex(ColNumToStr(n)) == n
  {
    if n >= 26 {
      assert 1 <= n / 26 <= 26 && n == n / 26 * 26 + n % 26;
    }
  }

  /** Every one- or two-letter upper-case header names exactly one column
      in 0 to 701. */
  lemma HeaderRoundTrip(s: string)
    requires (|s| == 1 || |s| == 2) && forall k :: 0 <= k < |s| ==> IsUpper(s[k])
    ensures 0 <= ColumnIndex(s) <= 701 && ColNumToStr(ColumnIndex(s)) == s
  {
    if |s| == 2 {
      var n := ColumnIndex(s);
      var hi, lo := s[0] as int - 'A' as int + 1, s[1] as int - 'A' as int;
      assert n == hi * 26 + lo && 0 <= lo < 26;
      assert n / 26 == hi && n % 26 == lo;
    }
  }

  /** Distinct columns in 0 to 701 get distinct headers. */
  lemma ColNumToStrInjective(m: int, n: int)
    requires 0 <= m <= 701 && 0 <= n <= 701 && m != n
    ensures ColNumToStr(m) != ColNumToStr(n)
  {
    ColumnRoundTrip(m);
    ColumnRoundTrip(n);
  }

  /** A one-letter header followed by a row number is an address that
      `Table::to_numeric` decodes back to that row and column. */
  lemma HeaderAddressDecodes(n: int, row: nat)
    requires 0 <= n < 26
    ensures DecodeAddress(ColNumToStr(n) + IntToString(row + 1)) == (row, n)
  {
    var letter := ColNumToStr(n)[0];
    assert letter as int == 'A' as int + n;
    assert ColNumToStr(n) == [letter];
    DecodeEncodedAddress(letter, row);
  }

  /** What a field character becomes inside the quotes. */
  function EscapeChar(c: char): string
  {
    if c == '"' then "\"\"" else [c]
  }

  /** The field text with every double quote doubled. */
  function Escaped(s: string): string
  {
    if s == [] then [] else EscapeChar(s[0]) + Escaped(s[1..])
  }

  lemma {:induction false} EscapedAppend(s: string, c: char)
    ensures Escaped(s + [c]) == Escaped(s) + EscapeChar(c)
    decreases |s|
  {
    if s == [] {
      assert [c][1..] == [];
    } else {
      assert (s + [c])[1..] == s[1..] + [c];
      EscapedAppend(s[1..], c);
    }
  }

  /** One turn of the quoting loop: the character at `k` is the next field
      character, doubled when it is a quote. */
  lemma QuoteStep(cell: string, j: nat, temp: string, k: nat)
    requires j < |cell| && k == |Escaped(cell[..j])| && temp == Escaped(cell[..j]) + cell[j..]
    ensures k < |temp| && temp[k] == cell[j]
    ensures cell[j] == '"' ==>
              temp[..k] + ['"'] + temp[k..] == Escaped(cell[..j + 1]) + cell[j + 1..] &&
              k + 2 == |Escaped(cell[..j + 1])|
    ensures cell[j] != '"' ==>
              temp == Escaped(cell[..j + 1]) + cell[j + 1..] && k + 1 == |Escaped(cell[..j + 1])|
  {
    var e := Escaped(cell[..j]);
    assert cell[..j + 1] == cell[..j] + [cell[j]];
    EscapedAppend(cell[..j], cell[j]);
    assert cell[j..] == [cell[j]] + cell[j + 1..];
    if cell[j] == '"' {
      assert temp[..k] == e && temp[k..] == cell[j..];
    }
  }

  /** The quoting loop and the enclosing quotes of `CSVTable::print_table`
      applied to one field. */
  method QuoteField(cell: string) returns (r: string)
    ensures r == "\"" + Escaped(cell) + "\""
  {
    var temp := cell;
    var k := 0;
    ghost var j := 0;
    while k < |temp|
      invariant 0 <= j <= |cell| && k == |Escaped(cell[..j])|
      invariant temp == Escaped(cell[..j]) + cell[j..] && |temp| == k + (|cell| - j)
    {
      QuoteStep(cell, j, temp, k);
      if temp[k] == '"' {
        temp := temp[..k] + ['"'] + temp[k..];
        k := k + 1;
      }
      k := k + 1;
      j := j + 1;
    }
    assert cell[..j] == cell;
    r := "\"" + temp + "\"";
  }

  /** Reading an escaped field back: a doubled quote stands for one quote,
      and a lone quote is not allowed. */
  function Unescape(s: string): (r: Option<string>)
  {
    if s == [] then Some([])
    else if s[0] != '"' then
      match Unescape(s[1..])
      case Some(t) => Some([s[0]] + t)
      case None => None
    else if |s| >= 2 && s[1] == '"' then
      match Unescape(s[2..])
      case Some(t) => Some(['"'] + t)
      case None => None
    else None
  }

  /** Reading a quoted field back, as an RFC 4180 reader does. */
  function Unquote(f: string): Option<string>
  {
    if |f| >= 2 && f[0] == '"' && f[|f| - 1] == '"' then Unescape(f[1..|f| - 1]) else None
  }

  lemma {:induction false} UnescapeEscaped(s: string)
    ensures Unescape(Escaped(s)) == Some(s)
    decreases |s|
  {
    if s != [] {
      var e := Escaped(s);
      UnescapeEscaped(s[1..]);
      if s[0] == '"' {
        assert e[0] == '"' && e[1] == '"' && e[2..] == Escaped(s[1..]);
        assert s == ['"'] + s[1..];
      } else {
        assert e[0] == s[0] && e[1..] == Escaped(s[1..]);
        assert s == [s[0]] + s[1..];
      }
    }
  }

  /** Quoting loses nothing: a reader gets every field back exactly. */
  lemma QuotedFieldRoundTrip(cell: string)
    ensures Unquote("\"" + Escaped(cell) + "\"") == Some(cell)
  {
    var f := "\"" + Escaped(cell) + "\"";
    assert f[1..|f| - 1] == Escaped(cell);
    UnescapeEscaped(cell);
  }

  /** Doubling keeps the other characters and adds one per quote. */
  lemma {:induction false} EscapedLength(s: string)
    ensures |Escaped(s)| == |s| + multiset(s)['"']
    decreases |s|
  {
    if s != [] {
      EscapedLength(s[1..]);
      assert s == [s[0]] + s[1..];
      assert multiset(s) == multiset([s[0]]) + multiset(s[1..]);
    }
  }
}
