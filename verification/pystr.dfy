/** The few Python string operations the command handlers rely on:
    `str.split` on one separator character, `str.startswith`, slicing up to a
    (possibly negative) stop index, `int()` on a string and `str()` on an int. */
module PyStr {

  datatype Option<T> = None | Some(value: T)

  /** `s.split(sep)`: the pieces between successive occurrences of `sep`.
      Unlike `s.split()`, empty pieces are kept, so there is always one more
      piece than there are separators. */
  function Split(s: string, sep: char): (parts: seq<string>)
    ensures |parts| >= 1
  {
    if s == [] then [[]]
    else
      var rest := Split(s[1..], sep);
      if s[0] == sep then [[]] + rest
      else [[s[0]] + rest[0]] + rest[1..]
  }

  /** No piece of a split contains the separator. */
  lemma {:induction false} SplitPiecesLackSeparator(s: string, sep: char)
    ensures forall i :: 0 <= i < |Split(s, sep)| ==> sep !in Split(s, sep)[i]
  {
    if s != [] {
      SplitPiecesLackSeparator(s[1..], sep);
    }
  }

  /** `sep.join(parts)` for a one-character separator. */
  function Join(parts: seq<string>, sep: char): string
    requires |parts| >= 1
  {
    if |parts| == 1 then parts[0] else parts[0] + [sep] + Join(parts[1..], sep)
  }

  /** Joining the pieces of a split gives back the original string. */
  lemma {:induction false} SplitJoin(s: string, sep: char)
    ensures Join(Split(s, sep), sep) == s
  {
    if s != [] {
      var rest := Split(s[1..], sep);
      SplitJoin(s[1..], sep);
      if s[0] != sep && |rest| > 1 {
        assert Join(rest, sep) == rest[0] + [sep] + Join(rest[1..], sep);
      }
    }
  }

  /** Splitting at a separator splits the two sides independently. */
  lemma {:induction false} SplitConcat(x: string, y: string, sep: char)
    ensures Split(x + [sep] + y, sep) == Split(x, sep) + Split(y, sep)
  {
    var s := x + [sep] + y;
    if x == [] {
      assert s[1..] == y;
    } else {
      assert s[1..] == x[1..] + [sep] + y;
      SplitConcat(x[1..], y, sep);
    }
  }

  /** A string without the separator is a single piece. */
  lemma {:induction false} SplitNoSeparator(x: string, sep: char)
    requires sep !in x
    ensures Split(x, sep) == [x]
  {
    if x != [] {
      SplitNoSeparator(x[1..], sep);
      assert [x[0]] + x[1..] == x;
    }
  }

  /** Splitting a join of separator-free pieces gives back the pieces. */
  lemma {:induction false} JoinSplit(parts: seq<string>, sep: char)
    requires |parts| >= 1
    requires forall i :: 0 <= i < |parts| ==> sep !in parts[i]
    ensures Split(Join(parts, sep), sep) == parts
  {
    SplitNoSeparator(parts[0], sep);
    if |parts| > 1 {
      JoinSplit(parts[1..], sep);
      SplitConcat(parts[0], Join(parts[1..], sep), sep);
    }
  }

  /** A separator-free word after a final separator is the last piece. */
  lemma SplitLastWord(x: string, word: string, sep: char)
    requires sep !in word
    ensures Split(x + [sep] + word, sep) == Split(x, sep) + [word]
  {
    SplitConcat(x, word, sep);
    SplitNoSeparator(word, sep);
  }

  /** Two space-free words joined by one space split back into the two. */
  lemma TwoWords(s: string, a: string, b: string)
    requires s == a + " " + b && ' ' !in a && ' ' !in b
    ensures Split(s, ' ') == [a, b]
  {
    SplitConcat(a, b, ' ');
    SplitNoSeparator(a, ' ');
    SplitNoSeparator(b, ' ');
  }

  /** `s.startswith(prefix)`: the first |prefix| characters of `s` are
      those of `prefix`. */
  predicate StartsWith(s: string, prefix: string)
    ensures StartsWith(s, prefix) <==>
      |prefix| <= |s| && forall i :: 0 <= i < |prefix| ==> s[i] == prefix[i]
  {
    prefix <= s
  }

  /** `s[:stop]`: a negative stop counts from the end, and a stop beyond
      either end is clamped to it. */
  function SliceTo(s: string, stop: int): (r: string)
    ensures r <= s
    ensures stop < 0 ==> |r| == if |s| + stop < 0 then 0 else |s| + stop
    ensures 0 <= stop ==> |r| == if stop < |s| then stop else |s|
  {
    var end := if stop < 0 then |s| + stop else stop;
    if end < 0 then [] else if end < |s| then s[..end] else s
  }

  /** A negative stop of -|suffix| cuts a non-empty suffix off. */
  lemma SliceToDropsSuffix(x: string, suffix: string)
    requires |suffix| > 0
    ensures SliceTo(x + suffix, -|suffix|) == x
  {
    assert (x + suffix)[..|x|] == x;
  }

  predicate IsDigit(c: char) {
    '0' <= c <= '9'
  }

  /** The characters `int()` skips around its argument: the ASCII space,
      tab, line feed, vertical tab, form feed and carriage return, and every
      non-ASCII character Python counts as whitespace. The ASCII separators
      0x1C..0x1F are whitespace to `str.isspace` but are not skipped by `int()`. */
  predicate IsIntSpace(c: char) {
    var n := c as int;
    n == 0x20 || 0x09 <= n <= 0x0D || n == 0x85 || n == 0xA0 || n == 0x1680
    || 0x2000 <= n <= 0x200A || n == 0x2028 || n == 0x2029 || n == 0x202F
    || n == 0x205F || n == 0x3000
  }

  function TrimStart(s: string): string
  {
    if s != [] && IsIntSpace(s[0]) then TrimStart(s[1..]) else s
  }

  function TrimEnd(s: string): string
  {
    if s != [] && IsIntSpace(s[|s| - 1]) then TrimEnd(s[..|s| - 1]) else s
  }

  /** Trimming only drops characters from the ends. */
  lemma {:induction false} TrimStartIsSuffix(s: string)
    ensures |TrimStart(s)| <= |s| && TrimStart(s) == s[|s| - |TrimStart(s)|..]
  {
    if s != [] && IsIntSpace(s[0]) {
      TrimStartIsSuffix(s[1..]);
    }
  }

  lemma {:induction false} TrimEndIsPrefix(s: string)
    ensures |TrimEnd(s)| <= |s| && TrimEnd(s) == s[..|TrimEnd(s)|]
  {
    if s != [] && IsIntSpace(s[|s| - 1]) {
      TrimEndIsPrefix(s[..|s| - 1]);
    }
  }

  /** The digit part `int()` accepts in base 10: decimal digits, with single
      underscores allowed between two digits. */
  predicate IsDigitRun(s: string) {
    |s| > 0 && IsDigit(s[0]) && IsDigit(s[|s| - 1])
    && (forall i :: 0 <= i < |s| ==> IsDigit(s[i]) || s[i] == '_')
    && (forall i :: 0 <= i < |s| - 1 ==> s[i] == '_' ==> s[i + 1] != '_')
  }

  /** The number the digits of `s` spell, underscores ignored. */
  function DigitsValue(s: string): nat
  {
    if s == [] then 0
    else
      var last := s[|s| - 1];
      if IsDigit(last) then DigitsValue(s[..|s| - 1]) * 10 + (last as int - '0' as int)
      else DigitsValue(s[..|s| - 1])
  }

  /** `int(s)` for a `str` argument in base 10: surrounding whitespace, then
      an optional sign, then a digit run; anything else raises ValueError,
      which is `None` here. */
  function ParseInt(s: string): (r: Option<int>)
    ensures r.Some? ==> exists i :: 0 <= i < |s| && IsDigit(s[i])
  {
    var u := TrimStart(s);
    var t := TrimEnd(u);
    TrimStartIsSuffix(s);
    TrimEndIsPrefix(u);
    assert |t| > 0 && IsDigit(t[|t| - 1]) ==> IsDigit(s[|s| - |u| + |t| - 1]);
    if |t| > 0 && (t[0] == '+' || t[0] == '-') then
      if IsDigitRun(t[1..]) then
        var magnitude: int := DigitsValue(t[1..]);
        Some(if t[0] == '-' then -magnitude else magnitude)
      else None
    else if IsDigitRun(t) then Some(DigitsValue(t))
    else None
  }

  function DigitChar(d: nat): (c: char)
    requires d < 10
    ensures IsDigit(c) && c as int - '0' as int == d
  {
    (d + '0' as int) as char
  }

  /** `str(n)` for a natural number: its decimal digits, no leading zero. */
  function NatDecimal(n: nat): (s: string)
    ensures |s| > 0 && (forall i :: 0 <= i < |s| ==> IsDigit(s[i]))
  {
    if n < 10 then [DigitChar(n)] else NatDecimal(n / 10) + [DigitChar(n % 10)]
  }

  /** `str(n)`: a minus sign before the digits of a negative number. */
  function Decimal(n: int): (s: string)
    ensures ' ' !in s
  {
    if n < 0 then "-" + NatDecimal(-n) else NatDecimal(n)
  }

  lemma {:induction false} NatDecimalValue(n: nat)
    ensures IsDigitRun(NatDecimal(n)) && DigitsValue(NatDecimal(n)) == n
  {
    var s := NatDecimal(n);
    if n >= 10 {
      NatDecimalValue(n / 10);
      assert s[..|s| - 1] == NatDecimal(n / 10);
    }
  }

  /** `int()` skips nothing around a string that starts with a sign or a
      digit and ends with a digit. */
  lemma NothingToTrim(s: string)
    requires |s| > 0 && (s[0] == '-' || IsDigit(s[0])) && IsDigit(s[|s| - 1])
    ensures TrimEnd(TrimStart(s)) == s
  {
    var first, last := s[0], s[|s| - 1];
    assert first as int == 0x2D || 0x30 <= first as int <= 0x39;
    assert 0x30 <= last as int <= 0x39;
    assert !IsIntSpace(first) && !IsIntSpace(last);
    assert TrimStart(s) == s;
    assert TrimEnd(s) == s;
  }

  /** `int(str(n)) == n` for every integer. */
  lemma ParseIntDecimal(n: int)
    ensures ParseInt(Decimal(n)) == Some(n)
  {
    var s := Decimal(n);
    var digits := NatDecimal(if n < 0 then -n else n);
    NatDecimalValue(if n < 0 then -n else n);
    if n < 0 {
      assert s == "-" + digits && s[1..] == digits;
      NothingToTrim(s);
    } else {
      NothingToTrim(s);
    }
  }
}
