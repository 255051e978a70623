/** Line-level string helpers the route map relies on: whitespace trimming,
    splitting on a separator, and unsigned decimal numerals. The trimming
    and splitting helpers of the repository are not part of this model;
    these definitions give them their usual meaning (see README). */
module Text {

  datatype Option<T> = None | Some(value: T)

  /** The characters `trim` strips from both ends of a line. */
  predicate IsSpace(c: char) {
    c == ' ' || c == '\t' || c == '\n' || c == '\r' || c == '\U{0B}' || c == '\U{0C}'
  }

  /** Drops leading whitespace. */
  function TrimLeft(s: string): (r: string)
    ensures |r| <= |s| && r == s[|s| - |r|..]
    ensures r == [] || !IsSpace(r[0])
    ensures forall i :: 0 <= i < |s| - |r| ==> IsSpace(s[i])
  {
    if |s| > 0 && IsSpace(s[0]) then TrimLeft(s[1..]) else s
  }

  /** Drops trailing whitespace. */
  function TrimRight(s: string): (r: string)
    ensures |r| <= |s| && r == s[..|r|]
    ensures r == [] || !IsSpace(r[|r| - 1])
    ensures forall i :: |r| <= i < |s| ==> IsSpace(s[i])
  {
    if |s| > 0 && IsSpace(s[|s| - 1]) then TrimRight(s[..|s| - 1]) else s
  }

  /** Drops whitespace at both ends. */
  function Trim(s: string): (r: string)
    ensures r == [] || (!IsSpace(r[0]) && !IsSpace(r[|r| - 1]))
  {
    TrimRight(TrimLeft(s))
  }

  /** A string that neither starts nor ends with whitespace is its own trim. */
  lemma TrimUnchanged(s: string)
    requires s != [] && !IsSpace(s[0]) && !IsSpace(s[|s| - 1])
    ensures Trim(s) == s
  {
    assert TrimLeft(s) == s;
  }

  /** Splits `s` at every occurrence of `sep`; empty fields are kept, so a
      string with k separators yields k + 1 fields. */
  function Split(s: string, sep: char): (fields: seq<string>)
    ensures |fields| >= 1
    ensures forall f :: f in fields ==> sep !in f
    decreases |s|
  {
    if |s| == 0 then [""]
    else
      var rest := Split(s[1..], sep);
      if s[0] == sep then [""] + rest
      else [[s[0]] + rest[0]] + rest[1..]
  }

  /** Splitting a separator-free field followed by the separator peels off
      exactly that field. */
  lemma {:induction false} SplitCons(x: string, sep: char, rest: string)
    requires sep !in x
    ensures Split(x + [sep] + rest, sep) == [x] + Split(rest, sep)
    decreases |x|
  {
    if x == [] {
      assert x + [sep] + rest == [sep] + rest;
      assert ([sep] + rest)[1..] == rest;
    } else {
      SplitCons(x[1..], sep, rest);
      assert (x + [sep] + rest)[1..] == x[1..] + [sep] + rest;
      assert [x[0]] + x[1..] == x;
    }
  }

  /** A string without the separator is one field. */
  lemma {:induction false} SplitSingle(x: string, sep: char)
    requires sep !in x
    ensures Split(x, sep) == [x]
    decreases |x|
  {
    if x != [] {
      SplitSingle(x[1..], sep);
      assert [x[0]] + x[1..] == x;
    }
  }

  /** Writes the fields with `sep` between neighbours. */
  function Join(fields: seq<string>, sep: char): string
    requires |fields| >= 1
    decreases |fields|
  {
    if |fields| == 1 then fields[0] else fields[0] + [sep] + Join(fields[1..], sep)
  }

  /** Joining from index i is field i, the separator, and the join of the
      fields after it. */
  lemma JoinFrom(fields: seq<string>, sep: char, i: nat)
    requires i + 1 < |fields|
    ensures Join(fields[i..], sep) == fields[i] + [sep] + Join(fields[i + 1..], sep)
  {
    assert fields[i..][1..] == fields[i + 1..];
  }

  /** Splitting undoes joining when no field contains the separator. */
  lemma {:induction false} SplitJoin(fields: seq<string>, sep: char)
    requires |fields| >= 1
    requires forall i :: 0 <= i < |fields| ==> sep !in fields[i]
    ensures Split(Join(fields, sep), sep) == fields
    decreases |fields|
  {
    if |fields| == 1 {
      SplitSingle(fields[0], sep);
    } else {
      SplitJoin(fields[1..], sep);
      SplitCons(fields[0], sep, Join(fields[1..], sep));
      assert [fields[0]] + fields[1..] == fields;
    }
  }

  /** The first character of a join is that of the first field, or the
      separator when the first field is empty. */
  lemma JoinStart(fields: seq<string>, sep: char)
    requires |fields| >= 2
    ensures var s := Join(fields, sep);
      |s| > 0 && s[0] == if fields[0] == [] then sep else fields[0][0]
  {
  }

  /** A join whose last field is empty ends with the separator. */
  lemma {:induction false} JoinEnd(fields: seq<string>, sep: char)
    requires |fields| >= 2 && fields[|fields| - 1] == []
    ensures var s := Join(fields, sep); |s| > 0 && s[|s| - 1] == sep
    decreases |fields|
  {
    if |fields| > 2 {
      JoinEnd(fields[1..], sep);
    }
  }

  predicate IsDigit(c: char) {
    '0' <= c <= '9'
  }

  predicate AllDigits(s: string) {
    forall i :: 0 <= i < |s| ==> IsDigit(s[i])
  }

  /** The value of a string of decimal digits, most significant first. */
  function DecimalValue(s: string): nat
    requires AllDigits(s)
  {
    if |s| == 0 then 0
    else DecimalValue(s[..|s| - 1]) * 10 + (s[|s| - 1] as int - '0' as int)
  }

  /** Unsigned decimal parse: a non-empty run of digits gives its value,
      anything else is a parse failure. */
  function ParseDecimal(s: string): (r: Option<nat>)
    ensures r.Some? <==> s != [] && AllDigits(s)
  {
    if s != [] && AllDigits(s) then Some(DecimalValue(s)) else None
  }

  function DigitChar(d: nat): (c: char)
    requires d < 10
    ensures IsDigit(c) && c as int - '0' as int == d
  {
    ('0' as int + d) as char
  }

  /** The decimal numeral of `n`, without leading zeros, as an output stream
      prints an unsigned integer. */
  function Decimal(n: nat): (s: string)
    ensures s != [] && AllDigits(s)
    ensures n > 0 ==> s[0] != '0'
  {
    if n < 10 then [DigitChar(n)] else Decimal(n / 10) + [DigitChar(n % 10)]
  }

  /** Printing a number and parsing it back gives the number. */
  lemma {:induction false} DecimalRoundTrip(n: nat)
    ensures ParseDecimal(Decimal(n)) == Some(n)
  {
    if n >= 10 {
      DecimalRoundTrip(n / 10);
      var s := Decimal(n);
      assert s[..|s| - 1] == Decimal(n / 10);
      assert DecimalValue(s) == DecimalValue(Decimal(n / 10)) * 10 + n % 10;
    }
  }

  /** A numeral has no separator or whitespace in it. */
  lemma DecimalHasNoSeparators(n: nat, sep: char)
    requires !IsDigit(sep)
    ensures sep !in Decimal(n)
  {
  }
}
