/** Hexadecimal and decimal text, and the readers that invert them. */
module Text {
  import opened ByteStrings
  import opened Wrappers

  function HexDigit(n: nat): char
    requires n < 16
  {
    if n < 10 then '0' + n as char else 'a' + (n - 10) as char
  }

  /** The value of a hexadecimal digit of either case. */
  function HexValue(c: char): (r: Option<nat>)
    ensures r.Some? ==> r.value < 16
  {
    if '0' <= c <= '9' then Some((c - '0') as nat)
    else if 'a' <= c <= 'f' then Some((c - 'a') as nat + 10)
    else if 'A' <= c <= 'F' then Some((c - 'A') as nat + 10)
    else None
  }

  /** Two lowercase digits a byte. */
  function Hex(s: Bytes): (t: string)
    ensures |t| == 2 * |s|
  {
    if s == [] then "" else [HexDigit(s[0] / 16), HexDigit(s[0] % 16)] + Hex(s[1..])
  }

  function Unhex(t: string): Option<Bytes> {
    if t == "" then Some([])
    else if |t| == 1 then None
    else
      var high :- HexValue(t[0]);
      var low :- HexValue(t[1]);
      var rest :- Unhex(t[2..]);
      Some([16 * high + low] + rest)
  }

  predicate IsHex(t: string) {
    forall i :: 0 <= i < |t| ==> '0' <= t[i] <= '9' || 'a' <= t[i] <= 'f'
  }

  lemma {:induction false} HexIsHex(s: Bytes)
    ensures IsHex(Hex(s))
  {
    if s != [] {
      HexIsHex(s[1..]);
    }
  }

  lemma {:induction false} HexRoundTrip(s: Bytes)
    ensures Unhex(Hex(s)) == Some(s)
  {
    if s != [] {
      HexRoundTrip(s[1..]);
      assert Hex(s)[2..] == Hex(s[1..]);
      assert s == [16 * (s[0] / 16) + s[0] % 16] + s[1..];
    }
  }

  /** Each byte's two digits, the high one first, of the sixteen in lower case. */
  lemma {:induction false} HexDigits(s: Bytes, i: nat)
    requires i < |s|
    ensures Hex(s)[2 * i] == "0123456789abcdef"[s[i] / 16] && Hex(s)[2 * i + 1] == "0123456789abcdef"[s[i] % 16]
  {
    if i == 0 {
      DigitIsHex(s[0] / 16);
      DigitIsHex(s[0] % 16);
    } else {
      HexDigits(s[1..], i - 1);
    }
  }

  lemma DigitIsHex(n: nat)
    requires n < 16
    ensures HexDigit(n) == "0123456789abcdef"[n]
  {
  }

  /** Hexadecimal text with its letters in lower case. */
  function Lowercase(t: string): (r: string)
    ensures |r| == |t|
  {
    if t == "" then "" else [if 'A' <= t[0] <= 'F' then t[0] - 'A' + 'a' else t[0]] + Lowercase(t[1..])
  }

  /** The reader takes exactly the hexadecimal texts of some bytes, in either case of letters. */
  lemma {:induction false} UnhexIsExact(t: string, s: Bytes)
    ensures Unhex(t) == Some(s) <==> Lowercase(t) == Hex(s)
  {
    if |t| >= 2 && s != [] {
      UnhexIsExact(t[2..], s[1..]);
      assert t[1..][1..] == t[2..];
      assert Lowercase(t) == [Lowercase(t)[0], Lowercase(t)[1]] + Lowercase(t[2..]);
      assert Hex(s) == [HexDigit(s[0] / 16), HexDigit(s[0] % 16)] + Hex(s[1..]);
      assert Lowercase(t)[2..] == Lowercase(t[2..]) && Hex(s)[2..] == Hex(s[1..]);
      DigitIsRead(t[0], s[0] / 16);
      DigitIsRead(t[1], s[0] % 16);
      UnhexSteps(t, s);
      PairsAgree(Lowercase(t), Hex(s));
    } else if s == [] {
      assert Unhex(t) == Some([]) ==> t == "";
    }
  }

  lemma PairsAgree(a: string, b: string)
    requires |a| >= 2 && |b| >= 2
    ensures a == b <==> a[0] == b[0] && a[1] == b[1] && a[2..] == b[2..]
  {
    assert a == [a[0], a[1]] + a[2..] && b == [b[0], b[1]] + b[2..];
  }

  lemma DigitIsRead(c: char, n: nat)
    requires n < 16
    ensures HexValue(c) == Some(n) <==> (if 'A' <= c <= 'F' then c - 'A' + 'a' else c) == HexDigit(n)
  {
  }

  lemma UnhexSteps(t: string, s: Bytes)
    requires |t| >= 2 && s != []
    ensures Unhex(t) == Some(s) <==>
            HexValue(t[0]) == Some(s[0] / 16) && HexValue(t[1]) == Some(s[0] % 16) && Unhex(t[2..]) == Some(s[1..])
  {
    assert s == [s[0]] + s[1..];
  }

  /** Of a text with no capitals there is one: the bytes' own. */
  lemma LowercaseHex(t: string, s: Bytes)
    requires IsHex(t)
    ensures Unhex(t) == Some(s) <==> t == Hex(s)
  {
    AlreadyLower(t);
    UnhexIsExact(t, s);
  }

  lemma {:induction false} AlreadyLower(t: string)
    requires IsHex(t)
    ensures Lowercase(t) == t
  {
    if t != "" {
      AlreadyLower(t[1..]);
      assert t == [t[0]] + t[1..];
    }
  }

  /** The bytes of an ASCII text. */
  function Ascii(t: string): (s: Bytes)
    ensures |s| == |t| && forall i :: 0 <= i < |t| ==> s[i] == t[i] as int % 256
  {
    seq(|t|, i requires 0 <= i < |t| => t[i] as int % 256)
  }

  function Digit(n: nat): char
    requires n < 10
  {
    '0' + n as char
  }

  function Decimal(n: nat): (t: string)
    ensures |t| > 0
  {
    if n < 10 then [Digit(n)] else Decimal(n / 10) + [Digit(n % 10)]
  }

  predicate IsDecimal(t: string) {
    forall i :: 0 <= i < |t| ==> '0' <= t[i] <= '9'
  }

  function DecimalValue(t: string): nat
    requires IsDecimal(t)
  {
    if t == "" then 0
    else DecimalValue(t[..|t| - 1]) * 10 + (t[|t| - 1] - '0') as nat
  }

  lemma {:induction false} DecimalRoundTrip(n: nat)
    ensures IsDecimal(Decimal(n)) && DecimalValue(Decimal(n)) == n
  {
    var t := Decimal(n);
    if n >= 10 {
      DecimalRoundTrip(n / 10);
      assert t[..|t| - 1] == Decimal(n / 10);
    } else {
      assert t[..0] == "";
    }
  }

  lemma DecimalInjective(a: nat, b: nat)
    requires Decimal(a) == Decimal(b)
    ensures a == b
  {
    DecimalRoundTrip(a);
    DecimalRoundTrip(b);
  }

  // ---------- Delimited text ----------

  /** Text before the first `c` is determined by the whole. */
  lemma {:induction false} UniqueSplit(a: string, x: string, b: string, y: string, c: char)
    requires c !in a && c !in b
    requires a + [c] + x == b + [c] + y
    ensures a == b && x == y
  {
    var s, t := a + [c] + x, b + [c] + y;
    assert s[|a|] == c && t[|b|] == c;
    assert forall i :: 0 <= i < |a| ==> s[i] == a[i] && a[i] != c;
    assert forall i :: 0 <= i < |b| ==> t[i] == b[i] && b[i] != c;
    assert s[..|a|] == a && t[..|b|] == b && s[|a| + 1..] == x && t[|b| + 1..] == y;
  }

  /** Text after the last `c` is determined by the whole. */
  lemma UniqueLastSplit(a: string, x: string, b: string, y: string, c: char)
    requires c !in x && c !in y
    requires a + [c] + x == b + [c] + y
    ensures a == b && x == y
  {
    var s, t := a + [c] + x, b + [c] + y;
    assert s[|a|] == c && t[|b|] == c;
    assert forall i :: |a| < i < |s| ==> s[i] == x[i - |a| - 1] && s[i] != c;
    assert forall i :: |b| < i < |t| ==> t[i] == y[i - |b| - 1] && t[i] != c;
    assert s[..|a|] == a && t[..|b|] == b && s[|a| + 1..] == x && t[|b| + 1..] == y;
  }

  /** A decimal number holds no character but digits. */
  lemma DecimalExcludes(n: nat, c: char)
    requires !('0' <= c <= '9')
    ensures c !in Decimal(n)
  {
    DecimalRoundTrip(n);
  }

  predicate StartsWith(s: string, prefix: string) {
    |prefix| <= |s| && s[..|prefix|] == prefix
  }

  predicate EndsWith(s: string, suffix: string) {
    |suffix| <= |s| && s[|s| - |suffix|..] == suffix
  }

  lemma LastLetter(s: string, suffix: string)
    requires suffix != "" && EndsWith(s, suffix)
    ensures s[|s| - 1] == suffix[|suffix| - 1]
  {
    assert s[|s| - |suffix|..][|suffix| - 1] == s[|s| - 1];
  }

  lemma EndsOtherwise(s: string, suffix: string)
    requires s != "" && suffix != "" && s[|s| - 1] != suffix[|suffix| - 1]
    ensures !EndsWith(s, suffix)
  {
    if EndsWith(s, suffix) {
      LastLetter(s, suffix);
    }
  }

  predicate Contains(s: string, part: string) {
    exists i :: 0 <= i <= |s| && StartsWith(s[i..], part)
  }

  /** The characters with Unicode's White_Space property. */
  predicate IsWhitespace(c: char) {
    || '\U{9}' <= c <= '\U{d}' || c == ' ' || c == '\U{85}' || c == '\U{a0}' || c == '\U{1680}'
    || '\U{2000}' <= c <= '\U{200a}' || c == '\U{2028}' || c == '\U{2029}' || c == '\U{202f}'
    || c == '\U{205f}' || c == '\U{3000}'
  }

  /** Those 25 characters, one by one. */
  lemma WhitespaceCharacters(c: char)
    ensures IsWhitespace(c) <==>
            c in {'\U{9}', '\U{a}', '\U{b}', '\U{c}', '\U{d}', '\U{20}', '\U{85}', '\U{a0}', '\U{1680}', '\U{2000}',
                  '\U{2001}', '\U{2002}', '\U{2003}', '\U{2004}', '\U{2005}', '\U{2006}', '\U{2007}', '\U{2008}',
                  '\U{2009}', '\U{200a}', '\U{2028}', '\U{2029}', '\U{202f}', '\U{205f}', '\U{3000}'}
  {
  }

  function TrimEnd(s: string): string {
    if s != "" && IsWhitespace(s[|s| - 1]) then TrimEnd(s[..|s| - 1]) else s
  }

  function TrimStart(s: string): string {
    if s != "" && IsWhitespace(s[0]) then TrimStart(s[1..]) else s
  }

  function Trim(s: string): string {
    TrimEnd(TrimStart(s))
  }

  lemma StartIsText(s: string, prefix: string)
    ensures StartsWith(s, prefix) <==> exists rest :: s == prefix + rest
  {
    if StartsWith(s, prefix) {
      assert s == prefix + s[|prefix|..];
    }
  }

  lemma EndIsText(s: string, suffix: string)
    ensures EndsWith(s, suffix) <==> exists head :: s == head + suffix
  {
    if EndsWith(s, suffix) {
      assert s == s[..|s| - |suffix|] + suffix;
    }
  }

  lemma PartIsText(s: string, part: string)
    ensures Contains(s, part) <==> exists head, tail :: s == head + part + tail
  {
    if Contains(s, part) {
      var i :| 0 <= i <= |s| && StartsWith(s[i..], part);
      assert s == s[..i] + part + s[i + |part|..];
    }
    if head, tail :| s == head + part + tail {
      assert s[|head|..] == part + tail;
      assert StartsWith(s[|head|..], part);
    }
  }

  predicate AllWhitespace(s: string) {
    forall i :: 0 <= i < |s| ==> IsWhitespace(s[i])
  }

  /** A text of which whitespace neither starts nor ends. */
  predicate Tight(t: string) {
    t == "" || (!IsWhitespace(t[0]) && !IsWhitespace(t[|t| - 1]))
  }

  lemma {:induction false} TrimEndSplits(s: string) returns (after: string)
    ensures s == TrimEnd(s) + after && AllWhitespace(after)
    ensures TrimEnd(s) == "" || !IsWhitespace(TrimEnd(s)[|TrimEnd(s)| - 1])
  {
    if s != "" && IsWhitespace(s[|s| - 1]) {
      after := TrimEndSplits(s[..|s| - 1]);
      after := after + [s[|s| - 1]];
    } else {
      after := "";
    }
  }

  lemma {:induction false} TrimStartSplits(s: string) returns (before: string)
    ensures s == before + TrimStart(s) && AllWhitespace(before)
    ensures TrimStart(s) == "" || !IsWhitespace(TrimStart(s)[0])
  {
    if s != "" && IsWhitespace(s[0]) {
      before := TrimStartSplits(s[1..]);
      before := [s[0]] + before;
    } else {
      before := "";
    }
  }

  /** Trimming takes whitespace off both ends, and all of it there is. */
  lemma TrimIsTight(s: string) returns (before: string, after: string)
    ensures s == before + Trim(s) + after && AllWhitespace(before) && AllWhitespace(after) && Tight(Trim(s))
  {
    hide IsWhitespace, TrimEnd, TrimStart;
    before := TrimStartSplits(s);
    after := TrimEndSplits(TrimStart(s));
    if Trim(s) != "" {
      assert Trim(s)[0] == TrimStart(s)[0];
    }
  }

  /** Trimming the end removes nothing up to a character that isn't whitespace. */
  lemma {:induction false} TrimEndKeeps(s: string, n: nat)
    requires 0 < n <= |s| && !IsWhitespace(s[n - 1])
    ensures n <= |TrimEnd(s)| <= |s| && TrimEnd(s) == s[..|TrimEnd(s)|]
    decreases |s|
  {
    if IsWhitespace(s[|s| - 1]) {
      TrimEndKeeps(s[..|s| - 1], n);
    }
  }

  /** Whitespace after a text with none at its end is what trimming the end removes. */
  lemma {:induction false} TrimEndDrops(s: string, blank: string)
    requires s != "" && !IsWhitespace(s[|s| - 1]) && forall i :: 0 <= i < |blank| ==> IsWhitespace(blank[i])
    ensures TrimEnd(s + blank) == s
    decreases |blank|
  {
    if blank == "" {
      assert s + blank == s;
    } else {
      var init := blank[..|blank| - 1];
      assert (s + blank)[..|s + blank| - 1] == s + init;
      TrimEndDrops(s, init);
    }
  }

  lemma {:induction false} TrimStartKeeps(head: string, suffix: string)
    requires suffix != "" && !IsWhitespace(suffix[0])
    ensures EndsWith(TrimStart(head + suffix), suffix)
  {
    var s := head + suffix;
    if head == "" {
      assert s == suffix;
    } else if IsWhitespace(head[0]) {
      assert s[1..] == head[1..] + suffix;
      TrimStartKeeps(head[1..], suffix);
    } else {
      assert s[|s| - |suffix|..] == suffix;
    }
  }

  /** A suffix with no whitespace at either end ends the text still when it is trimmed. */
  lemma TrimKeepsSuffix(head: string, suffix: string)
    requires suffix != "" && !IsWhitespace(suffix[0]) && !IsWhitespace(suffix[|suffix| - 1])
    ensures EndsWith(Trim(head + suffix), suffix)
  {
    TrimStartKeeps(head, suffix);
    LastLetter(TrimStart(head + suffix), suffix);
  }

  /** A prefix with no whitespace at either end starts the text still when it is trimmed. */
  lemma TrimKeepsPrefix(prefix: string, rest: string)
    requires prefix != "" && !IsWhitespace(prefix[0]) && !IsWhitespace(prefix[|prefix| - 1])
    ensures StartsWith(Trim(prefix + rest), prefix)
    ensures Trim(prefix + rest) <= prefix + rest
  {
    var s := prefix + rest;
    TrimEndKeeps(s, |prefix|);
    assert s[..|TrimEnd(s)|][..|prefix|] == prefix;
  }
}
