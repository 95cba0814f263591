/** Text: character classes of the C locale, trimming and tokenizing, and the
    decimal numbers `%lld` prints and `strtoll` reads. */
module Text {
  import opened Words
  import opened Isa

  // ----- characters -----

  predicate IsSpace(c: char) {
    c == ' ' || 9 <= c as int <= 13
  }

  predicate IsDigit(c: char) {
    '0' <= c <= '9'
  }

  predicate IsAlpha(c: char) {
    'a' <= c <= 'z' || 'A' <= c <= 'Z'
  }

  /** What `tokenize` and `strtok_r(.., "\n", ..)` split at. */
  datatype Delimiters = Blanks | Newline

  predicate Splits(d: Delimiters, c: char) {
    match d
    case Blanks => IsSpace(c) || c == ','
    case Newline => c == '\n'
  }

  // ----- trimming -----

  function TrimLeft(s: string): string {
    if s != [] && IsSpace(s[0]) then TrimLeft(s[1..]) else s
  }

  function TrimRight(s: string): string {
    if s != [] && IsSpace(s[|s| - 1]) then TrimRight(s[..|s| - 1]) else s
  }

  function Trim(s: string): string {
    TrimRight(TrimLeft(s))
  }

  /** Text without a space at either end is left alone. */
  lemma TrimNothing(s: string)
    requires s != [] ==> !IsSpace(s[0]) && !IsSpace(s[|s| - 1])
    ensures Trim(s) == s
  {
  }

  predicate Spaces(s: string) {
    forall i :: 0 <= i < |s| ==> IsSpace(s[i])
  }

  lemma {:induction false} LeftPadding(pad: string, s: string)
    requires Spaces(pad) && s != [] && !IsSpace(s[0])
    ensures TrimLeft(pad + s) == s
  {
    if pad == [] {
      assert pad + s == s;
    } else {
      assert (pad + s)[1..] == pad[1..] + s;
      LeftPadding(pad[1..], s);
    }
  }

  lemma {:induction false} RightPadding(s: string, pad: string)
    requires Spaces(pad) && s != [] && !IsSpace(s[|s| - 1])
    ensures TrimRight(s + pad) == s
    decreases |pad|
  {
    if pad == [] {
      assert s + pad == s;
    } else {
      assert (s + pad)[..|s + pad| - 1] == s + pad[..|pad| - 1];
      RightPadding(s, pad[..|pad| - 1]);
    }
  }

  /** Spaces around text are trimmed away. */
  lemma TrimPadded(lead: string, s: string, trail: string)
    requires Spaces(lead) && Spaces(trail) && s != [] && !IsSpace(s[0]) && !IsSpace(s[|s| - 1])
    ensures Trim(lead + s + trail) == s
  {
    assert lead + s + trail == lead + (s + trail);
    LeftPadding(lead, s + trail);
    RightPadding(s, trail);
    hide TrimLeft, TrimRight, Spaces;
  }

  method TrimText(s: string) returns (r: string)
    ensures r == Trim(s)
  {
    var lo := 0;
    while lo < |s| && IsSpace(s[lo])
      invariant lo <= |s| && TrimLeft(s) == TrimLeft(s[lo..])
    {
      assert s[lo..][1..] == s[lo + 1..];
      lo := lo + 1;
    }
    var hi := |s|;
    assert s[lo..hi] == s[lo..];
    while hi > lo && IsSpace(s[hi - 1])
      invariant lo <= hi <= |s| && TrimRight(s[lo..]) == TrimRight(s[lo..hi])
    {
      assert s[lo..hi][..hi - lo - 1] == s[lo..hi - 1];
      hi := hi - 1;
    }
    return s[lo..hi];
  }

  // ----- tokens -----

  function SkipSeparators(d: Delimiters, s: string): (r: string)
    ensures |r| <= |s| && (r != [] ==> !Splits(d, r[0]))
  {
    if s != [] && Splits(d, s[0]) then SkipSeparators(d, s[1..]) else s
  }

  /** Length of the word `s` starts with. */
  function WordLength(d: Delimiters, s: string): (n: nat)
    ensures n <= |s|
    ensures forall i :: 0 <= i < n ==> !Splits(d, s[i])
    ensures n < |s| ==> Splits(d, s[n])
  {
    if s != [] && !Splits(d, s[0]) then 1 + WordLength(d, s[1..]) else 0
  }

  /** The maximal runs of characters that are not delimiters. */
  function Tokens(d: Delimiters, s: string): seq<string>
    decreases |s|
  {
    var t := SkipSeparators(d, s);
    if t == [] then [] else [t[..WordLength(d, t)]] + Tokens(d, t[WordLength(d, t)..])
  }

  predicate IsWord(d: Delimiters, w: string) {
    w != [] && forall i :: 0 <= i < |w| ==> !Splits(d, w[i])
  }

  lemma {:induction false} WordLengthOf(d: Delimiters, w: string, rest: string)
    requires forall i :: 0 <= i < |w| ==> !Splits(d, w[i])
    requires rest != [] ==> Splits(d, rest[0])
    ensures WordLength(d, w + rest) == |w|
  {
    if w != [] {
      assert (w + rest)[1..] == w[1..] + rest;
      WordLengthOf(d, w[1..], rest);
    } else {
      assert w + rest == rest;
    }
  }

  /** A word followed by a separator, or by nothing, is the first token. */
  lemma FirstToken(d: Delimiters, w: string, rest: string)
    requires IsWord(d, w)
    requires rest != [] ==> Splits(d, rest[0])
    ensures Tokens(d, w + rest) == [w] + Tokens(d, rest)
  {
    WordLengthOf(d, w, rest);
    var s := w + rest;
    assert SkipSeparators(d, s) == s;
    assert s[..|w|] == w && s[|w|..] == rest;
  }

  lemma SkipOne(d: Delimiters, s: string)
    requires s != [] && Splits(d, s[0])
    ensures Tokens(d, s) == Tokens(d, s[1..])
  {
    assert SkipSeparators(d, s) == SkipSeparators(d, s[1..]);
  }

  method SkipFrom(d: Delimiters, line: string, at: nat) returns (cursor: nat)
    requires at <= |line|
    ensures at <= cursor <= |line| && (cursor < |line| ==> !Splits(d, line[cursor]))
    ensures Tokens(d, line[at..]) == Tokens(d, line[cursor..])
  {
    cursor := at;
    while cursor < |line| && Splits(d, line[cursor])
      invariant at <= cursor <= |line|
      invariant Tokens(d, line[at..]) == Tokens(d, line[cursor..])
    {
      SkipOne(d, line[cursor..]);
      assert line[cursor..][1..] == line[cursor + 1..];
      cursor := cursor + 1;
    }
  }

  method WordFrom(d: Delimiters, line: string, start: nat) returns (cursor: nat)
    requires start < |line| && !Splits(d, line[start])
    ensures start < cursor <= |line|
    ensures Tokens(d, line[start..]) == [line[start..cursor]] + Tokens(d, line[cursor..])
  {
    cursor := start + 1;
    while cursor < |line| && !Splits(d, line[cursor])
      invariant start < cursor <= |line|
      invariant forall i :: start <= i < cursor ==> !Splits(d, line[i])
    {
      cursor := cursor + 1;
    }
    FirstToken(d, line[start..cursor], line[cursor..]);
    assert line[start..] == line[start..cursor] + line[cursor..];
  }

  /** At most `max` tokens, or failure when there are more. */
  method Tokenize(d: Delimiters, line: string, max: nat) returns (ok: bool, tokens: seq<string>)
    ensures ok == (|Tokens(d, line)| <= max)
    ensures ok ==> tokens == Tokens(d, line)
  {
    hide Tokens;
    tokens := [];
    var cursor := 0;
    assert line[0..] == line;
    while cursor < |line|
      invariant cursor <= |line| && |tokens| <= max
      invariant Tokens(d, line) == tokens + Tokens(d, line[cursor..])
    {
      cursor := SkipFrom(d, line, cursor);
      if cursor == |line| { break; }
      var start := cursor;
      cursor := WordFrom(d, line, start);
      if |tokens| >= max {
        return false, tokens;
      }
      tokens := tokens + [line[start..cursor]];
    }
    NoTokens(d, line[cursor..]);
    return true, tokens;
  }

  lemma NoTokens(d: Delimiters, s: string)
    requires s == []
    ensures Tokens(d, s) == []
  {
  }

  // ----- numbers -----

  function DigitValue(c: char): nat {
    if IsDigit(c) then c as int - '0' as int
    else if 'a' <= c <= 'z' then c as int - 'a' as int + 10
    else if 'A' <= c <= 'Z' then c as int - 'A' as int + 10
    else 36
  }

  /** How many leading characters are digits of the base. */
  function DigitRun(s: string, base: nat): (n: nat)
    ensures n <= |s|
  {
    if s != [] && DigitValue(s[0]) < base then 1 + DigitRun(s[1..], base) else 0
  }

  /** The number the digits spell, most significant first. */
  function NumberValue(s: string, base: nat): nat {
    if s == [] then 0 else NumberValue(s[..|s| - 1], base) * base + DigitValue(s[|s| - 1])
  }

  /** What the `strto..` functions see with base 0: the sign, the magnitude and
      where the number ends; `end` is 0 when there is no number. */
  datatype Scan = Scan(negative: bool, magnitude: nat, end: nat)

  function SpaceRun(s: string): (n: nat)
    ensures n <= |s|
  {
    if s != [] && IsSpace(s[0]) then 1 + SpaceRun(s[1..]) else 0
  }

  /** 16 after `0x` and a hexadecimal digit, 8 after `0`, 10 otherwise. */
  function DetectBase(s: string): nat {
    if |s| >= 3 && s[0] == '0' && (s[1] == 'x' || s[1] == 'X') && DigitValue(s[2]) < 16 then 16
    else if s != [] && s[0] == '0' then 8
    else 10
  }

  function ScanInteger(s: string): Scan {
    var i := SpaceRun(s);
    var signed := i < |s| && (s[i] == '-' || s[i] == '+');
    var j := if signed then i + 1 else i;
    var base := DetectBase(s[j..]);
    var k := if base == 16 then j + 2 else j;
    var n := DigitRun(s[k..], base);
    if n == 0 then Scan(false, 0, 0)
    else Scan(signed && s[i] == '-', NumberValue(s[k..k + n], base), k + n)
  }

  /** `parse_i64`: the whole token is one number in range. */
  function ParseI64(token: string): Option<i64> {
    if token == [] then None
    else
      var scan := ScanInteger(token);
      var value: int := if scan.negative then 0 - scan.magnitude else scan.magnitude;
      if scan.end == 0 || scan.end != |token| || !Fits(value) then None else Some(value)
  }

  /** The value `strtoull` returns: too large saturates, a minus sign negates
      modulo 2^64. */
  function UnsignedValue(scan: Scan): u64 {
    if scan.magnitude >= TWO_64 then TWO_64 - 1
    else if scan.negative then (TWO_64 - scan.magnitude) % TWO_64
    else scan.magnitude
  }

  // ----- printed numbers -----

  function DigitChar(d: nat): (c: char)
    requires d < 16
    ensures DigitValue(c) == d
  {
    if d < 10 then ('0' as int + d) as char else ('a' as int + d - 10) as char
  }

  predicate IsBase(base: nat) {
    base == 8 || base == 10 || base == 16
  }

  /** The digits of n, most significant first, without leading zeros. */
  function DigitsIn(n: nat, base: nat): string
    requires IsBase(base)
    decreases n
  {
    if n < base then [DigitChar(n)] else DigitsIn(n / base, base) + [DigitChar(n % base)]
  }

  function Digits(n: nat): string {
    DigitsIn(n, 10)
  }

  /** `%lld` */
  function Decimal(x: int): string {
    if x < 0 then "-" + Digits(-x) else Digits(x)
  }

  lemma {:induction false} DigitsInShape(n: nat, base: nat)
    requires IsBase(base)
    ensures var d := DigitsIn(n, base);
      && d != []
      && (forall i :: 0 <= i < |d| ==> DigitValue(d[i]) < base)
      && (n > 0 ==> DigitValue(d[0]) > 0)
      && (n == 0 ==> d == ['0'])
    decreases n
  {
    if n >= base {
      DigitsInShape(n / base, base);
    }
  }

  /** A decimal number is digits, without a leading zero unless it is 0. */
  lemma {:induction false} DigitsShape(n: nat)
    ensures Digits(n) != []
    ensures forall i :: 0 <= i < |Digits(n)| ==> IsDigit(Digits(n)[i])
    ensures n > 0 ==> Digits(n)[0] != '0'
    ensures n == 0 ==> Digits(n) == ['0']
    decreases n
  {
    DigitsInShape(n, 10);
  }

  lemma {:induction false} DigitsInValue(n: nat, base: nat)
    requires IsBase(base)
    ensures NumberValue(DigitsIn(n, base), base) == n
    decreases n
  {
    if n >= base {
      DigitsInValue(n / base, base);
      var d := DigitsIn(n, base);
      assert d[..|d| - 1] == DigitsIn(n / base, base);
    } else {
      assert NumberValue([], base) == 0;
    }
  }

  lemma {:induction false} AllDigits(s: string, base: nat)
    requires forall i :: 0 <= i < |s| ==> DigitValue(s[i]) < base
    ensures DigitRun(s, base) == |s|
  {
    if s != [] {
      AllDigits(s[1..], base);
    }
  }

  /** Scanning a printed number, sign included, finds all of it. */
  lemma ScanDecimal(x: int)
    ensures ScanInteger(Decimal(x)) == Scan(x < 0, Abs(x), |Decimal(x)|)
  {
    var m := Abs(x);
    var d := Digits(m);
    var s := Decimal(x);
    var j := if x < 0 then 1 else 0;
    DigitsShape(m);
    DigitsInShape(m, 10);
    DigitsInValue(m, 10);
    hide DigitsIn;
    ZeroValue();
    AllDigits(d, if m == 0 then 8 else 10);
    assert s[j..] == d && s[j..j + |d|] == d;
    assert SpaceRun(s) == 0;
    hide NumberValue, DigitRun;
    assert DetectBase(d) == if m == 0 then 8 else 10;
  }

  lemma ZeroValue()
    ensures NumberValue("0", 8) == 0
  {
    assert "0"[..0] == [];
  }

  /** Reading a printed 64-bit number gives it back, INT64_MIN included. */
  lemma ParsePrinted(x: i64)
    ensures ParseI64(Decimal(x)) == Some(x)
  {
    ScanDecimal(x);
    DigitsShape(Abs(x));
  }

  // ----- numerals as C writes them -----

  /** c is the digit for d, in either case. */
  predicate IsNumeral(c: char, d: nat)
    requires d < 16
  {
    c == "0123456789abcdef"[d] || c == "0123456789ABCDEF"[d]
  }

  lemma DigitTable(c: char, d: nat)
    requires d < 16
    ensures IsNumeral(c, d) <==> DigitValue(c) == d
  {
  }

  /** What separates words, what numbers are made of and what names are. */
  lemma CharacterTables(c: char)
    ensures IsSpace(c) <==> c in " \t\n\r\U{0B}\U{0C}"
    ensures IsDigit(c) <==> c in "0123456789"
    ensures IsAlpha(c) <==> 65 <= c as int <= 90 || 97 <= c as int <= 122
    ensures Splits(Blanks, c) <==> c in " \t\n\r\U{0B}\U{0C},"
    ensures Splits(Newline, c) <==> c == '\n'
  {
  }

  /** The digits s spell n, leading zeros allowed. */
  predicate Spells(s: string, n: nat, base: nat)
    requires IsBase(base)
  {
    && s != []
    && IsNumeral(s[|s| - 1], n % base)
    && (if |s| == 1 then n < base else Spells(s[..|s| - 1], n / base, base))
  }

  predicate AreDigits(s: string, base: nat) {
    forall i :: 0 <= i < |s| ==> DigitValue(s[i]) < base
  }

  lemma LastDigit(high: nat, low: nat, base: nat)
    requires IsBase(base) && low < base
    ensures (high * base + low) % base == low && (high * base + low) / base == high
  {
    RemainderIs(high * base + low, base, high, low);
  }

  lemma {:induction false} SpellsValue(s: string, n: nat, base: nat)
    requires IsBase(base)
    ensures Spells(s, n, base) <==> s != [] && AreDigits(s, base) && NumberValue(s, base) == n
    decreases |s|
  {
    if s != [] {
      hide DigitValue, IsNumeral;
      var before, c := s[..|s| - 1], s[|s| - 1];
      DigitTable(c, n % base);
      var q, r := Quotient(n, base);
      if DigitValue(c) < base {
        LastDigit(NumberValue(before, base), DigitValue(c), base);
      }
      if |s| == 1 {
        assert NumberValue(before, base) == 0;
      } else {
        SpellsValue(before, n / base, base);
      }
      assert AreDigits(s, base) <==> AreDigits(before, base) && DigitValue(c) < base;
    }
  }

  /** The digits s after `prefix` are a numeral of that base: hexadecimal after
      0x or 0X, octal from a 0 on, else decimal. */
  predicate IsWritten(prefix: string, s: string, base: nat) {
    || (base == 16 && (prefix == "0x" || prefix == "0X"))
    || (base == 8 && prefix == "" && s != [] && s[0] == '0')
    || (base == 10 && prefix == "" && s != [] && s[0] != '0')
  }

  /** Cut at i, j and k, `token` is spaces, a sign, a prefix and digits that
      spell n. */
  predicate Numeral(token: string, i: nat, j: nat, k: nat, n: nat, base: nat) {
    && i <= j <= k <= |token|
    && (forall x :: 0 <= x < i ==> IsSpace(token[x]))
    && token[i..j] in {"", "+", "-"}
    && IsWritten(token[j..k], token[k..], base) && Spells(token[k..], n, base)
  }

  lemma {:induction false} SpaceRunIs(s: string, i: nat)
    requires i <= |s| && forall x :: 0 <= x < i ==> IsSpace(s[x])
    requires i < |s| ==> !IsSpace(s[i])
    ensures SpaceRun(s) == i
  {
    if i > 0 {
      SpaceRunIs(s[1..], i - 1);
    }
  }

  lemma DigitIsPlain(c: char)
    requires DigitValue(c) < 36
    ensures !IsSpace(c) && c != '-' && c != '+'
    ensures DigitValue(c) == 0 <==> c == '0'
  {
  }

  lemma HexadecimalPrefix(prefix: string, s: string)
    requires prefix == "0x" || prefix == "0X"
    requires s != [] && DigitValue(s[0]) < 16
    ensures DetectBase(prefix + s) == 16
  {
    var t := prefix + s;
    assert t[0] == prefix[0] && t[1] == prefix[1] && t[2] == s[0];
    hide DigitValue;
  }

  lemma OtherBase(s: string, base: nat)
    requires s != [] && AreDigits(s, base)
    requires if s[0] == '0' then base == 8 else base == 10
    ensures DetectBase(s) == base
  {
    assert |s| > 1 ==> DigitValue(s[1]) < base;
    assert DigitValue('x') == 33 && DigitValue('X') == 33;
    hide DigitValue;
  }

  lemma BaseOf(t: string, p: nat, n: nat, base: nat)
    requires p <= |t| && IsWritten(t[..p], t[p..], base) && Spells(t[p..], n, base)
    ensures DetectBase(t) == base && IsBase(base) && t != []
    ensures !IsSpace(t[0]) && t[0] != '-' && t[0] != '+'
    ensures p == if base == 16 then 2 else 0
  {
    var s := t[p..];
    SpellsValue(s, n, base);
    hide Spells, NumberValue, DetectBase, DigitValue, IsSpace;
    DigitIsPlain(s[0]);
    ZeroIsPlain();
    assert t == t[..p] + s;
    if base == 16 {
      HexadecimalPrefix(t[..p], s);
      assert t[0] == t[..p][0];
    } else {
      assert t == s;
      OtherBase(s, base);
    }
  }

  lemma ZeroIsPlain()
    ensures !IsSpace('0')
  {
  }

  lemma SignIsPlain(c: char)
    requires c == '+' || c == '-'
    ensures !IsSpace(c)
  {
  }

  lemma PrefixFits(t: string)
    ensures DetectBase(t) == 16 ==> |t| >= 3
  {
    hide DigitValue;
  }

  /** The steps of a scan. */
  lemma ScanSteps(token: string, i: nat, j: nat, k: nat, base: nat)
    requires i == SpaceRun(token)
    requires j == if i < |token| && (token[i] == '-' || token[i] == '+') then i + 1 else i
    requires base == DetectBase(token[j..]) && k == if base == 16 then j + 2 else j
    ensures k <= |token|
    ensures var d := DigitRun(token[k..], base);
      ScanInteger(token) ==
        if d == 0 then Scan(false, 0, 0)
        else Scan(i < j && token[i] == '-', NumberValue(token[k..k + d], base), k + d)
  {
    hide SpaceRun, DigitRun, NumberValue, DetectBase, DigitValue, IsSpace, IsDigit;
    PrefixFits(token[j..]);
    assert k <= |token|;
  }

  lemma TailOf(token: string, j: nat, k: nat)
    requires j <= k <= |token|
    ensures token[j..][..k - j] == token[j..k] && token[j..][k - j..] == token[k..]
  {
  }

  /** Where the sign is, and where it ends. */
  lemma SignAt(token: string, i: nat, j: nat)
    requires i <= j < |token| && token[i..j] in {"", "+", "-"}
    requires !IsSpace(token[j]) && token[j] != '-' && token[j] != '+'
    ensures !IsSpace(token[i])
    ensures j == if token[i] == '-' || token[i] == '+' then i + 1 else i
    ensures token[i..j] == "-" <==> i < j && token[i] == '-'
  {
    hide IsSpace;
    if j == i + 1 {
      assert token[i] == token[i..j][0];
      SignIsPlain(token[i]);
    }
  }

  /** Scanning a numeral finds its sign and value, and all of it. */
  lemma ScanNumeral(token: string, i: nat, j: nat, k: nat, n: nat, base: nat)
    requires Numeral(token, i, j, k, n, base)
    ensures ScanInteger(token) == Scan(token[i..j] == "-", n, |token|) && token != []
  {
    hide ScanInteger, Spells, NumberValue, DigitRun, DetectBase, IsWritten, DigitValue, SpaceRun, IsSpace;
    TailOf(token, j, k);
    BaseOf(token[j..], k - j, n, base);
    SpellsValue(token[k..], n, base);
    AllDigits(token[k..], base);
    assert token[j] == token[j..][0];
    SignAt(token, i, j);
    SpaceRunIs(token, i);
    ScanSteps(token, i, j, k, base);
    assert token[k..|token|] == token[k..];
  }

  lemma {:induction false} SpacesSkipped(s: string)
    ensures forall i :: 0 <= i < SpaceRun(s) ==> IsSpace(s[i])
  {
    if s != [] && IsSpace(s[0]) {
      SpacesSkipped(s[1..]);
    }
  }

  lemma {:induction false} DigitsFound(s: string, base: nat)
    ensures AreDigits(s[..DigitRun(s, base)], base)
  {
    if s != [] && DigitValue(s[0]) < base {
      DigitsFound(s[1..], base);
      assert s[..DigitRun(s, base)] == [s[0]] + s[1..][..DigitRun(s[1..], base)];
    }
  }

  lemma PrefixFound(t: string, base: nat)
    requires base == DetectBase(t)
    ensures var p := if base == 16 then 2 else 0;
      p <= |t| && (t[p..] != [] ==> IsWritten(t[..p], t[p..], base))
  {
    if base == 16 {
      assert t[..2] == [t[0], t[1]];
    }
    hide DigitValue;
  }

  lemma CutSign(token: string, i: nat) returns (j: nat)
    requires i <= |token|
    ensures j == if i < |token| && (token[i] == '-' || token[i] == '+') then i + 1 else i
    ensures i <= j <= |token| && token[i..j] in {"", "+", "-"}
  {
    j := i;
    if i < |token| && (token[i] == '-' || token[i] == '+') {
      j := i + 1;
      assert token[i..j] == [token[i]];
    } else {
      assert token[i..j] == "";
    }
  }

  /** Where a scan that takes the whole token cuts it. */
  lemma ScannedDigits(token: string, i: nat, j: nat, k: nat, base: nat)
    requires ScanInteger(token).end == |token| > 0
    requires i == SpaceRun(token)
    requires j == if i < |token| && (token[i] == '-' || token[i] == '+') then i + 1 else i
    requires base == DetectBase(token[j..]) && k == if base == 16 then j + 2 else j
    ensures k < |token| && AreDigits(token[k..], base)
    ensures ScanInteger(token).magnitude == NumberValue(token[k..], base)
  {
    hide ScanInteger, NumberValue, DigitRun, DetectBase, DigitValue, SpaceRun;
    ScanSteps(token, i, j, k, base);
    DigitsFound(token[k..], base);
    var s := token[k..];
    assert s[..|s|] == s && token[k..k + |s|] == s;
  }

  /** Whatever is scanned to its end is a numeral. */
  lemma ScannedIsNumeral(token: string) returns (i: nat, j: nat, k: nat, base: nat)
    requires ScanInteger(token).end == |token| > 0
    ensures Numeral(token, i, j, k, ScanInteger(token).magnitude, base)
  {
    hide ScanInteger, Spells, NumberValue, AreDigits, DetectBase, IsWritten, DigitValue, SpaceRun, IsSpace;
    i := SpaceRun(token);
    j := CutSign(token, i);
    base := DetectBase(token[j..]);
    k := if base == 16 then j + 2 else j;
    ScannedDigits(token, i, j, k, base);
    SpacesSkipped(token);
    PrefixFound(token[j..], base);
    BaseFound(token[j..]);
    TailOf(token, j, k);
    SpellsValue(token[k..], NumberValue(token[k..], base), base);
  }

  lemma BaseFound(t: string)
    ensures IsBase(DetectBase(t))
  {
  }

  function Signed(negative: bool, n: nat): int {
    var m: int := n;
    if negative then -m else m
  }

  /** Cut at i, j and k, `token` is a numeral for v. */
  predicate NumeralFor(token: string, i: nat, j: nat, k: nat, n: nat, base: nat, v: int) {
    Numeral(token, i, j, k, n, base) && v == Signed(token[i..j] == "-", n)
  }

  lemma NumeralIsRead(token: string, i: nat, j: nat, k: nat, n: nat, base: nat, v: i64)
    requires NumeralFor(token, i, j, k, n, base, v)
    ensures ParseI64(token) == Some(v)
  {
    hide Numeral, ScanInteger;
    ScanNumeral(token, i, j, k, n, base);
  }

  lemma ReadIsNumeral(token: string, v: i64) returns (i: nat, j: nat, k: nat, n: nat, base: nat)
    requires ParseI64(token) == Some(v)
    ensures NumeralFor(token, i, j, k, n, base, v)
  {
    hide Numeral, ScanInteger;
    i, j, k, base := ScannedIsNumeral(token);
    n := ScanInteger(token).magnitude;
    ScanNumeral(token, i, j, k, n, base);
  }

  /** A token is read as the number v exactly if it is a numeral for v: any
      base, any case of the letters, any sign, any leading zeros. */
  lemma NumeralMeaning(token: string, v: i64)
    ensures ParseI64(token) == Some(v) <==>
      exists i: nat, j: nat, k: nat, n: nat, base: nat :: NumeralFor(token, i, j, k, n, base, v)
  {
    hide NumeralFor, ParseI64;
    if i: nat, j: nat, k: nat, n: nat, base: nat :| NumeralFor(token, i, j, k, n, base, v) {
      NumeralIsRead(token, i, j, k, n, base, v);
    }
    if ParseI64(token) == Some(v) {
      var i, j, k, n, base := ReadIsNumeral(token, v);
    }
  }

  /** A sign, a prefix and digits are read in full, if the number fits. */
  lemma ParseNumeral(sign: string, prefix: string, s: string, n: nat, base: nat)
    requires sign in {"", "+", "-"} && IsWritten(prefix, s, base) && Spells(s, n, base)
    ensures var v := Signed(sign == "-", n);
      ParseI64(sign + prefix + s) == if Fits(v) then Some(v) else None
  {
    hide Spells, IsWritten, ScanInteger;
    var token := sign + prefix + s;
    var j, k := |sign|, |sign| + |prefix|;
    assert token[0..j] == sign && token[j..k] == prefix && token[k..] == s;
    ScanNumeral(token, 0, j, k, n, base);
  }

  lemma {:induction false} LeadingZero(d: string, base: nat)
    ensures NumberValue("0" + d, base) == NumberValue(d, base)
    decreases |d|
  {
    var s := "0" + d;
    if d == [] {
      assert NumberValue([], base) == 0 && s == ['0'];
    } else {
      LeadingZero(d[..|d| - 1], base);
      assert s[..|s| - 1] == "0" + d[..|d| - 1];
    }
  }

  /** Distinct numbers print differently. */
  lemma DecimalInjective(x: int, y: int)
    requires Decimal(x) == Decimal(y)
    ensures x == y
  {
    ScanDecimal(x);
    ScanDecimal(y);
  }
}
