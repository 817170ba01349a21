/** Values, strings, numbers and calendar names shared by every part of the
    key-worker record model. Python's string operations that the application
    relies on (strip, lower, split, join, str(int), "%02d") are defined here
    once, with the facts the rest of the model needs about them. */
module Common {

  datatype Option<T> = None | Some(value: T)

  /** A cell as SQLite stores it and Python hands it over: NULL (None),
      an INTEGER or TEXT. */
  datatype Value = Null | Int(i: int) | Text(s: string)

  /** Python's truth value of a cell: None, 0 and "" are false. */
  predicate Truthy(v: Value)
  {
    match v
    case Null => false
    case Int(i) => i != 0
    case Text(s) => s != ""
  }

  /** Python's str() of a cell. */
  function Render(v: Value): string
  {
    match v
    case Null => "None"
    case Int(i) => IntToString(i)
    case Text(s) => s
  }

  /** The cell under `key`, or NULL when the dictionary has no such key
      (Python's dict.get). */
  function Get(m: map<string, Value>, key: string): Value
  {
    if key in m then m[key] else Null
  }

  // ---------------------------------------------------------------- numbers

  predicate IsDigit(c: char)
  {
    '0' <= c <= '9'
  }

  predicate AllDigits(s: string)
  {
    forall i :: 0 <= i < |s| ==> IsDigit(s[i])
  }

  function DigitChar(d: nat): (c: char)
    requires d < 10
    ensures IsDigit(c) && (c as int) - ('0' as int) == d
  {
    (('0' as int) + d) as char
  }

  /** Decimal rendering of a natural number, as Python's str() gives it. */
  function NatToString(n: nat): (s: string)
    ensures |s| >= 1 && AllDigits(s)
    ensures s[0] == '0' ==> n == 0
    decreases n
  {
    if n < 10 then [DigitChar(n)] else NatToString(n / 10) + [DigitChar(n % 10)]
  }

  /** Python's str() of an int. */
  function IntToString(i: int): string
  {
    if i < 0 then "-" + NatToString(-i) else NatToString(i)
  }

  /** The number a string of decimal digits denotes (Python's int()). */
  function DigitsValue(s: string): nat
    requires AllDigits(s)
  {
    if s == [] then 0
    else DigitsValue(s[..|s| - 1]) * 10 + ((s[|s| - 1] as int) - ('0' as int))
  }

  /** int(str(n)) == n: the rendering of a year or an id reads back. */
  lemma {:induction false} NatToStringRoundTrip(n: nat)
    ensures DigitsValue(NatToString(n)) == n
    decreases n
  {
    if n >= 10 {
      var s := NatToString(n);
      NatToStringRoundTrip(n / 10);
      assert s[..|s| - 1] == NatToString(n / 10);
    }
  }

  /** "%02d" for a number below 100. */
  function Pad2(n: nat): (s: string)
    requires n < 100
    ensures |s| == 2 && AllDigits(s)
  {
    [DigitChar(n / 10), DigitChar(n % 10)]
  }

  lemma Pad2RoundTrip(n: nat)
    requires n < 100
    ensures DigitsValue(Pad2(n)) == n
  {
    var s := Pad2(n);
    assert s[..1] == [DigitChar(n / 10)];
    assert s[..1][..0] == [];
    assert DigitsValue(s[..1]) == n / 10;
  }

  // ---------------------------------------------------------------- strings

  /** The whitespace str.strip() removes, restricted to ASCII: space, tab,
      line feed, vertical tab, form feed, carriage return and the four
      separators 0x1C..0x1F. */
  predicate IsSpace(c: char)
  {
    c == ' ' || c == '\t' || c == '\n' || c == '\r' || c == '\U{0B}' || c == '\U{0C}'
    || ('\U{1C}' <= c <= '\U{1F}')
  }

  function StripLeft(s: string): (r: string)
    ensures |r| <= |s| && r == s[|s| - |r|..]
    ensures r != [] ==> !IsSpace(r[0])
    ensures forall i :: 0 <= i < |s| - |r| ==> IsSpace(s[i])
  {
    if s != [] && IsSpace(s[0]) then StripLeft(s[1..]) else s
  }

  function StripRight(s: string): (r: string)
    ensures |r| <= |s| && r == s[..|r|]
    ensures r != [] ==> !IsSpace(r[|r| - 1])
    ensures forall i :: |r| <= i < |s| ==> IsSpace(s[i])
  {
    if s != [] && IsSpace(s[|s| - 1]) then StripRight(s[..|s| - 1]) else s
  }

  /** Python's str.strip(): the text between leading and trailing whitespace. */
  function Strip(s: string): (r: string)
    ensures r != [] ==> !IsSpace(r[0]) && !IsSpace(r[|r| - 1])
    ensures r == [] <==> forall i :: 0 <= i < |s| ==> IsSpace(s[i])
  {
    var l := StripLeft(s);
    var r := StripRight(l);
    StripSlices(s, l, r);
    r
  }

  /** What str.strip() leaves: s is some whitespace, then the result, then
      some whitespace. With the ends of the result not being whitespace
      (the contract of Strip), this fixes the result. */
  lemma StripIsSlice(s: string) returns (lead: string, trail: string)
    ensures s == lead + Strip(s) + trail
    ensures forall k :: 0 <= k < |lead| ==> IsSpace(lead[k])
    ensures forall k :: 0 <= k < |trail| ==> IsSpace(trail[k])
  {
    lead, trail := SplitAround(s, StripLeft(s), Strip(s));
  }

  /** s split around r, a prefix of the suffix l of s, into what comes
      before l and what follows r in l. */
  lemma SplitAround(s: string, l: string, r: string) returns (lead: string, trail: string)
    requires |l| <= |s| && l == s[|s| - |l|..]
    requires forall k :: 0 <= k < |s| - |l| ==> IsSpace(s[k])
    requires |r| <= |l| && r == l[..|r|]
    requires forall k :: |r| <= k < |l| ==> IsSpace(l[k])
    ensures s == lead + r + trail
    ensures forall k :: 0 <= k < |lead| ==> IsSpace(lead[k])
    ensures forall k :: 0 <= k < |trail| ==> IsSpace(trail[k])
  {
    lead, trail := s[..|s| - |l|], l[|r|..];
    assert s == lead + l;
    assert l == r + trail;
  }

  /** Trimming the end of the left-trimmed text leaves a slice of s
      followed only by whitespace, and empties it only when it was all
      whitespace. */
  lemma StripSlices(s: string, l: string, r: string)
    requires |l| <= |s| && l == s[|s| - |l|..]
    requires |r| <= |l| && r == l[..|r|] && (forall k :: |r| <= k < |l| ==> IsSpace(l[k]))
    requires forall k :: 0 <= k < |s| - |l| ==> IsSpace(s[k])
    requires l != [] ==> !IsSpace(l[0])
    requires r != [] ==> !IsSpace(r[|r| - 1])
    ensures r != [] ==> !IsSpace(r[0]) && !IsSpace(r[|r| - 1])
    ensures r == [] <==> forall k :: 0 <= k < |s| ==> IsSpace(s[k])
    ensures var i := |s| - |l|;
      && i + |r| <= |s| && r == s[i..i + |r|]
      && forall k :: i + |r| <= k < |s| ==> IsSpace(s[k])
  {
    var i := |s| - |l|;
    forall k | i + |r| <= k < |s| ensures IsSpace(s[k]) {
      assert s[k] == l[k - i];
    }
  }

  /** A string with no surrounding whitespace is its own strip. */
  lemma StripTrimmed(s: string)
    requires s != [] ==> !IsSpace(s[0]) && !IsSpace(s[|s| - 1])
    ensures Strip(s) == s
  {
  }

  function LowerChar(c: char): char
  {
    if 'A' <= c <= 'Z' then ((c as int) - ('A' as int) + ('a' as int)) as char else c
  }

  /** Python's str.lower(), restricted to ASCII letters. */
  function Lower(s: string): (r: string)
    ensures |r| == |s|
    ensures forall i :: 0 <= i < |s| ==> r[i] == LowerChar(s[i])
  {
    if s == [] then [] else [LowerChar(s[0])] + Lower(s[1..])
  }

  /** sep.join(parts). */
  function Join(sep: string, parts: seq<string>): string
  {
    if parts == [] then ""
    else if |parts| == 1 then parts[0]
    else parts[0] + sep + Join(sep, parts[1..])
  }

  /** Python's s.split(sep) for a one-character separator: the pieces between
      consecutive separators, so "".split("-") == [""]. */
  function Split(s: string, sep: char): (r: seq<string>)
    ensures |r| >= 1
    ensures forall k :: 0 <= k < |r| ==> sep !in r[k]
  {
    if sep !in s then [s]
    else
      var i := IndexOfChar(s, sep);
      [s[..i]] + Split(s[i + 1..], sep)
  }

  /** Position of the first `c` in `s`. */
  function IndexOfChar(s: string, c: char): (i: nat)
    requires c in s
    ensures i < |s| && s[i] == c && c !in s[..i]
  {
    if s[0] == c then 0 else 1 + IndexOfChar(s[1..], c)
  }

  lemma {:induction false} IndexOfCharFirst(s: string, c: char, j: nat)
    requires j < |s| && s[j] == c && c !in s[..j]
    ensures IndexOfChar(s, c) == j
  {
    if j > 0 {
      assert s[0] in s[..j];
      assert s[1..][j - 1] == c;
      assert s[1..][..j - 1] == s[1..j];
      IndexOfCharFirst(s[1..], c, j - 1);
    }
  }

  /** Joining pieces free of the separator and splitting again gives the
      pieces back. */
  lemma {:induction false} SplitJoin(parts: seq<string>, sep: char)
    requires |parts| >= 1
    requires forall k :: 0 <= k < |parts| ==> sep !in parts[k]
    ensures Split(Join([sep], parts), sep) == parts
  {
    if |parts| > 1 {
      var rest := Join([sep], parts[1..]);
      var s := parts[0] + [sep] + rest;
      assert s[|parts[0]|] == sep;
      assert s[..|parts[0]|] == parts[0];
      IndexOfCharFirst(s, sep, |parts[0]|);
      assert s[|parts[0]| + 1..] == rest;
      SplitJoin(parts[1..], sep);
    }
  }

  /** `t` occurs in `s` (Python's `t in s` on strings). */
  predicate Contains(s: string, t: string)
  {
    exists i :: 0 <= i <= |s| - |t| && OccursAt(s, t, i)
  }

  predicate OccursAt(s: string, t: string, i: int)
  {
    0 <= i <= |s| - |t| && s[i..i + |t|] == t
  }

  /** A string made of digits and `-` contains no letter, so no "Year". */
  lemma NoYearInDigits(s: string)
    requires forall i :: 0 <= i < |s| ==> IsDigit(s[i]) || s[i] == '-'
    ensures !Contains(s, "Year")
  {
    forall i | 0 <= i <= |s| - 4 ensures !OccursAt(s, "Year", i) {
      assert s[i..i + 4][0] == s[i];
    }
  }

  /** A non-empty set has an element: the witness a `:|` choice needs. */
  lemma NonEmptyHasElement(s: set<int>)
    requires s != {}
    ensures exists x :: x in s
  {
    if forall x :: x !in s {
      assert false;
    }
  }

  // --------------------------------------------------------------- ordering

  /** Strict lexicographic order of strings by code point: SQLite's BINARY
      collation for UTF-8 text. */
  predicate LexLess(a: string, b: string)
  {
    if a == [] then b != []
    else if b == [] then false
    else a[0] < b[0] || (a[0] == b[0] && LexLess(a[1..], b[1..]))
  }

  lemma {:induction false} LexLessIrreflexive(a: string)
    ensures !LexLess(a, a)
  {
    if a != [] { LexLessIrreflexive(a[1..]); }
  }

  lemma {:induction false} LexLessTotal(a: string, b: string)
    requires a != b
    ensures LexLess(a, b) || LexLess(b, a)
  {
    if a != [] && b != [] && a[0] == b[0] {
      assert a == [a[0]] + a[1..] && b == [b[0]] + b[1..];
      LexLessTotal(a[1..], b[1..]);
    }
  }

  lemma {:induction false} LexLessTransitive(a: string, b: string, c: string)
    requires LexLess(a, b) && LexLess(b, c)
    ensures LexLess(a, c)
  {
    if a != [] && b != [] && c != [] && a[0] == b[0] && b[0] == c[0] {
      LexLessTransitive(a[1..], b[1..], c[1..]);
    }
  }

  // ------------------------------------------------------------- calendar

  /** strftime("%B") names. */
  const MonthNames: seq<string> := ["January", "February", "March", "April", "May", "June",
    "July", "August", "September", "October", "November", "December"]

  /** strftime("%b") names. */
  const MonthAbbrevs: seq<string> := ["Jan", "Feb", "Mar", "Apr", "May", "Jun",
    "Jul", "Aug", "Sep", "Oct", "Nov", "Dec"]

  /** Month number (1..12) of a full month name, as strptime("%B") reads
      it and as the main window's list.index gives it (plus one). */
  function MonthOfName(name: string): (r: Option<int>)
    ensures r.Some? ==> 1 <= r.value <= 12
  {
    if name == "January" then Some(1) else if name == "February" then Some(2)
    else if name == "March" then Some(3) else if name == "April" then Some(4)
    else if name == "May" then Some(5) else if name == "June" then Some(6)
    else if name == "July" then Some(7) else if name == "August" then Some(8)
    else if name == "September" then Some(9) else if name == "October" then Some(10)
    else if name == "November" then Some(11) else if name == "December" then Some(12)
    else None
  }

  /** Month number (1..12) of an abbreviation, as strptime("%b") reads it. */
  function MonthOfAbbrev(abbr: string): (r: Option<int>)
    ensures r.Some? ==> 1 <= r.value <= 12
  {
    if abbr == "Jan" then Some(1) else if abbr == "Feb" then Some(2)
    else if abbr == "Mar" then Some(3) else if abbr == "Apr" then Some(4)
    else if abbr == "May" then Some(5) else if abbr == "Jun" then Some(6)
    else if abbr == "Jul" then Some(7) else if abbr == "Aug" then Some(8)
    else if abbr == "Sep" then Some(9) else if abbr == "Oct" then Some(10)
    else if abbr == "Nov" then Some(11) else if abbr == "Dec" then Some(12)
    else None
  }

  /** The lookups invert the tables: a name is found exactly when it is in
      the table, at its position. */
  lemma MonthOfNameInverse(name: string, m: int)
    ensures MonthOfName(name) == Some(m) <==> 1 <= m <= 12 && MonthNames[m - 1] == name
    ensures MonthOfName(name).None? <==> name !in MonthNames
  {
  }

  lemma MonthOfAbbrevInverse(abbr: string, m: int)
    ensures MonthOfAbbrev(abbr) == Some(m) <==> 1 <= m <= 12 && MonthAbbrevs[m - 1] == abbr
    ensures MonthOfAbbrev(abbr).None? <==> abbr !in MonthAbbrevs
  {
    if MonthOfAbbrev(abbr).Some? {
      assert MonthAbbrevs[MonthOfAbbrev(abbr).value - 1] == abbr;
    }
  }

  /** What strptime("%m") accepts: "01".."09", "10".."12" or "1".."9". */
  function ParseMonthNumber(s: string): (r: Option<nat>)
    ensures r.Some? ==> 1 <= r.value <= 12
  {
    if |s| == 1 && '1' <= s[0] <= '9' then Some((s[0] as int) - ('0' as int))
    else if |s| == 2 && s[0] == '0' && '1' <= s[1] <= '9' then Some((s[1] as int) - ('0' as int))
    else if |s| == 2 && s[0] == '1' && '0' <= s[1] <= '2' then Some(10 + (s[1] as int) - ('0' as int))
    else None
  }

  /** strftime("%m") reads back through strptime("%m"). */
  lemma ParseMonthNumberPad2(m: nat)
    requires 1 <= m <= 12
    ensures ParseMonthNumber(Pad2(m)) == Some(m)
  {
  }
}
