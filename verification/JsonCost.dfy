/**
 The syntax trees of JSON texts (RFC 8259), what each costs, and the proof that the flat scan of a text
 counts the cost of its tree.
 */
module JsonCost {
  import opened ByteStrings
  import opened Wrappers
  import opened JsonScan
  import T = Text

  // ---------- Syntax trees and their texts ----------

  /** A number (section 6): its parts as written. */
  datatype Number = Number(minus: bool, whole: Bytes, fraction: Option<Bytes>, exponent: Option<Exponent>)
  datatype Exponent = Exponent(mark: byte, sign: Option<byte>, digits: Bytes)

  datatype Literal = True | False | Null

  /** Values (section 3), with the insignificant whitespace (section 2) of each text kept in the tree. */
  datatype Value =
    | Lit(literal: Literal)
    | Num(number: Number)
    | Str(raw: Bytes)
    | Array(blank: Bytes, items: Items)
    | Object(blank: Bytes, members: Members)
  datatype Items = NoItems | Items(before: Bytes, value: Value, after: Bytes, rest: Items)
  datatype Members =
    | NoMembers
    | Members(before: Bytes, key: Bytes, afterKey: Bytes, beforeValue: Bytes, value: Value, after: Bytes, rest: Members)

  datatype Document = Document(before: Bytes, value: Value, after: Bytes)

  /** Spaces, tabs and line ends. */
  predicate Blank(s: Bytes) {
    forall i :: 0 <= i < |s| ==> s[i] == 32 || s[i] == 9 || s[i] == 10 || s[i] == 13
  }

  predicate Digits(s: Bytes) {
    s != [] && forall i :: 0 <= i < |s| ==> 48 <= s[i] <= 57
  }

  predicate ValidNumber(n: Number) {
    && Digits(n.whole) && (n.whole[0] == 48 ==> |n.whole| == 1)
    && (n.fraction.Some? ==> Digits(n.fraction.value))
    && (n.exponent.Some? ==>
          var e := n.exponent.value;
          && (e.mark == 101 || e.mark == 69)
          && (e.sign.Some? ==> e.sign.value == 43 || e.sign.value == MINUS)
          && Digits(e.digits))
  }

  predicate IsHexDigit(c: byte) {
    IsDigit(c) || 97 <= c <= 102 || 65 <= c <= 70
  }

  /** The escapes of one character: quote, backslash, solidus, b, f, n, r and t. */
  predicate IsShortEscape(c: byte) {
    c == QUOTE || c == BACKSLASH || c == 47 || c == 98 || c == 102 || c == 110 || c == 114 || c == 116
  }

  /** What may stand between a string's quotes (section 7). */
  predicate ValidRaw(s: Bytes) {
    if s == [] then true
    else if s[0] == BACKSLASH then
      && |s| >= 2
      && if s[1] == 117 then
           |s| >= 6 && IsHexDigit(s[2]) && IsHexDigit(s[3]) && IsHexDigit(s[4]) && IsHexDigit(s[5]) && ValidRaw(s[6..])
         else IsShortEscape(s[1]) && ValidRaw(s[2..])
    else s[0] >= 32 && s[0] != QUOTE && ValidRaw(s[1..])
  }

  predicate Valid(v: Value) {
    match v
    case Lit(_) => true
    case Num(n) => ValidNumber(n)
    case Str(raw) => ValidRaw(raw)
    case Array(blank, items) => Blank(blank) && ValidItems(items)
    case Object(blank, members) => Blank(blank) && ValidMembers(members)
  }

  predicate ValidItems(items: Items) {
    match items
    case NoItems => true
    case Items(before, value, after, rest) => Blank(before) && Valid(value) && Blank(after) && ValidItems(rest)
  }

  predicate ValidMembers(members: Members) {
    match members
    case NoMembers => true
    case Members(before, key, afterKey, beforeValue, value, after, rest) =>
      && Blank(before) && ValidRaw(key) && Blank(afterKey) && Blank(beforeValue) && Valid(value) && Blank(after)
      && ValidMembers(rest)
  }

  predicate ValidDocument(d: Document) {
    Blank(d.before) && Valid(d.value) && Blank(d.after)
  }

  function LiteralText(l: Literal): Bytes {
    match l
    case True => [116, 114, 117, 101]
    case False => [102, 97, 108, 115, 101]
    case Null => [110, 117, 108, 108]
  }

  function NumberText(n: Number): Bytes {
    (if n.minus then [MINUS] else []) + n.whole
    + (if n.fraction.Some? then [46] + n.fraction.value else [])
    + (if n.exponent.Some? then ExponentText(n.exponent.value) else [])
  }

  function ExponentText(e: Exponent): Bytes {
    [e.mark] + (if e.sign.Some? then [e.sign.value] else []) + e.digits
  }

  function Text(v: Value): Bytes {
    match v
    case Lit(l) => LiteralText(l)
    case Num(n) => NumberText(n)
    case Str(raw) => [QUOTE] + (raw + [QUOTE])
    case Array(blank, items) => [OPEN_BRACKET] + (blank + (ItemsText(items) + [CLOSE_BRACKET]))
    case Object(blank, members) => [OPEN_BRACE] + (blank + (MembersText(members) + [CLOSE_BRACE]))
  }

  function ItemsText(items: Items): Bytes {
    match items
    case NoItems => []
    case Items(before, value, after, rest) =>
      before + (Text(value) + (after + if rest.NoItems? then [] else [COMMA] + ItemsText(rest)))
  }

  function MembersText(members: Members): Bytes {
    match members
    case NoMembers => []
    case Members(before, key, afterKey, beforeValue, value, after, rest) =>
      before + ([QUOTE] + (key + [QUOTE])
                + (afterKey + ([COLON] + (beforeValue
                                          + (Text(value) + (after + if rest.NoMembers? then []
                                                            else [COMMA] + MembersText(rest)))))))
  }

  function DocumentText(d: Document): Bytes {
    d.before + (Text(d.value) + d.after)
  }

  /** The bytes named here are the characters they are named for. */
  lemma Characters()
    ensures T.Ascii("\"\\[]{}:,-")
         == [QUOTE, BACKSLASH, OPEN_BRACKET, CLOSE_BRACKET, OPEN_BRACE, CLOSE_BRACE, COLON, COMMA, MINUS]
    ensures LiteralText(True) == T.Ascii("true") && LiteralText(False) == T.Ascii("false")
    ensures LiteralText(Null) == T.Ascii("null")
  {
  }

  // ---------- Cost ----------

  /** One for each string, key, number or literal, and 8 for each container. */
  function Cost(v: Value): (n: nat)
    ensures n > 0
  {
    match v
    case Array(_, items) => 8 + ItemsCost(items)
    case Object(_, members) => 8 + MembersCost(members)
    case _ => 1
  }

  function ItemsCost(items: Items): nat {
    match items
    case NoItems => 0
    case Items(_, value, _, rest) => Cost(value) + ItemsCost(rest)
  }

  function MembersCost(members: Members): nat {
    match members
    case NoMembers => 0
    case Members(_, _, _, _, value, _, rest) => 1 + Cost(value) + MembersCost(rest)
  }

  function Numbers(v: Value): (n: nat)
    ensures n <= Cost(v)
  {
    match v
    case Num(_) => 1
    case Array(_, items) => ItemsNumbers(items)
    case Object(_, members) => MembersNumbers(members)
    case _ => 0
  }

  function ItemsNumbers(items: Items): (n: nat)
    ensures n <= ItemsCost(items)
  {
    match items
    case NoItems => 0
    case Items(_, value, _, rest) => Numbers(value) + ItemsNumbers(rest)
  }

  function MembersNumbers(members: Members): (n: nat)
    ensures n <= MembersCost(members)
  {
    match members
    case NoMembers => 0
    case Members(_, _, _, _, value, _, rest) => Numbers(value) + MembersNumbers(rest)
  }

  predicate IsContainer(v: Value) {
    v.Array? || v.Object?
  }

  /** The numbers of a top-level member that cost a sixteenth. */
  function MemberProofNumbers(key: Bytes, v: Value): (n: nat)
    ensures n <= Cost(v)
  {
    if key == T.Ascii("proof") && IsContainer(v) then Numbers(v) else 0
  }

  /** The numbers inside containers that are values of top-level members whose raw key is `proof`. */
  function ProofNumbers(members: Members): (n: nat)
    ensures n <= MembersCost(members)
  {
    match members
    case NoMembers => 0
    case Members(_, key, _, _, value, _, rest) =>
      MemberProofNumbers(key, value) + ProofNumbers(rest)
  }

  function DocumentProofNumbers(d: Document): nat {
    if d.value.Object? then ProofNumbers(d.value.members) else 0
  }

  // ---------- Tokens ----------

  /** A byte that is no token's start is passed over. */
  lemma IdleByte(b: byte, s: Bytes, c: Count, budget: Budget)
    requires IsBlank(b) || b == COMMA || b == COLON
    ensures Scanned([b] + s, c, budget) == Scanned(s, c, budget)
  {
    assert Drop([b] + s, 1) == s;
    assert Token([b] + s, c, budget) == (c, 1);
  }

  lemma {:induction false} BlankScans(blank: Bytes, s: Bytes, c: Count, budget: Budget)
    requires Blank(blank)
    ensures Scanned(blank + s, c, budget) == Scanned(s, c, budget)
  {
    hide Scanned;
    if blank == [] {
      assert blank + s == s;
    } else {
      assert blank + s == [blank[0]] + (blank[1..] + s);
      IdleByte(blank[0], blank[1..] + s, c, budget);
      BlankScans(blank[1..], s, c, budget);
    }
  }

  lemma OpenScans(b: byte, s: Bytes, c: Count, budget: Budget)
    requires b == OPEN_BRACKET || b == OPEN_BRACE
    ensures Scanned([b] + s, c, budget) == Scanned(s, CountOpen(c), budget)
  {
    assert Drop([b] + s, 1) == s;
  }

  lemma CloseScans(b: byte, s: Bytes, c: Count, budget: Budget)
    requires b == CLOSE_BRACKET || b == CLOSE_BRACE
    ensures Scanned([b] + s, c, budget) == Scanned(s, CountClose(c), budget)
  {
    assert Drop([b] + s, 1) == s;
  }

  lemma {:induction false} PlainBytes(s: Bytes, rest: Bytes)
    requires forall i :: 0 <= i < |s| ==> s[i] != QUOTE && s[i] != BACKSLASH
    ensures StringLength(s + rest) == |s| + StringLength(rest)
    decreases |s|
  {
    if s == [] {
      assert s + rest == rest;
    } else {
      assert (s + rest)[1..] == s[1..] + rest;
      PlainBytes(s[1..], rest);
    }
  }

  lemma {:induction false} RawLength(raw: Bytes, rest: Bytes)
    requires ValidRaw(raw)
    ensures StringLength(raw + ([QUOTE] + rest)) == |raw|
    decreases |raw|
  {
    var s := raw + ([QUOTE] + rest);
    if raw == [] {
      assert s[0] == QUOTE;
    } else if raw[0] == BACKSLASH {
      if raw[1] == 117 {
        var more := raw[6..] + ([QUOTE] + rest);
        assert Drop(s, 2) == raw[2..6] + more;
        PlainBytes(raw[2..6], more);
        RawLength(raw[6..], rest);
      } else {
        assert Drop(s, 2) == raw[2..] + ([QUOTE] + rest);
        RawLength(raw[2..], rest);
      }
    } else {
      assert s[1..] == raw[1..] + ([QUOTE] + rest);
      RawLength(raw[1..], rest);
    }
  }

  lemma StringScans(raw: Bytes, s: Bytes, c: Count, budget: Budget)
    requires ValidRaw(raw)
    ensures Scanned([QUOTE] + (raw + [QUOTE]) + s, c, budget) == Scanned(s, CountString(c, raw, s, budget), budget)
  {
    var all := [QUOTE] + (raw + [QUOTE]) + s;
    assert all[1..] == raw + ([QUOTE] + s);
    RawLength(raw, s);
    assert all[1..][..|raw|] == raw;
    assert Drop(all, |raw| + 2) == s;
  }

  predicate ScalarBytes(s: Bytes) {
    forall i :: 0 <= i < |s| ==> IsScalarByte(s[i])
  }

  lemma {:induction false} ScalarRun(s: Bytes, rest: Bytes)
    requires ScalarBytes(s) && (rest == [] || !IsScalarByte(rest[0]))
    ensures ScalarLength(s + rest) == |s|
  {
    if s == [] {
      assert s + rest == rest;
    } else {
      assert (s + rest)[1..] == s[1..] + rest;
      ScalarRun(s[1..], rest);
    }
  }

  lemma NumberScans(n: Number, s: Bytes, c: Count, budget: Budget)
    requires ValidNumber(n) && (s == [] || !IsScalarByte(s[0]))
    ensures Scanned(NumberText(n) + s, c, budget) == Scanned(s, CountNumber(c), budget)
  {
    var text := NumberText(n);
    NumberBytes(n);
    assert (text + s)[0] == text[0] && (text + s)[1..] == text[1..] + s;
    ScalarRun(text[1..], s);
    assert Drop(text + s, |text|) == s;
  }

  lemma NumberBytes(n: Number)
    requires ValidNumber(n)
    ensures NumberText(n) != [] && ScalarBytes(NumberText(n))
    ensures NumberText(n)[0] == MINUS || IsDigit(NumberText(n)[0])
  {
    if n.exponent.Some? {
      assert ScalarBytes(ExponentText(n.exponent.value));
    }
    if n.fraction.Some? {
      assert ScalarBytes([46] + n.fraction.value);
    }
  }

  lemma LiteralScans(l: Literal, s: Bytes, c: Count, budget: Budget)
    requires s == [] || !IsScalarByte(s[0])
    ensures Scanned(LiteralText(l) + s, c, budget) == Scanned(s, c.(units := c.units + 1), budget)
  {
    var text := LiteralText(l);
    assert (text + s)[0] == text[0] && (text + s)[1..] == text[1..] + s;
    ScalarRun(text[1..], s);
    assert Drop(text + s, |text|) == s;
  }

  // ---------- What follows a value ----------

  /** After a value and any whitespace comes a comma, the end of a container, or the end. */
  predicate Follows(s: Bytes) {
    var t := SkipBlank(s);
    t == [] || t[0] == COMMA || t[0] == CLOSE_BRACKET || t[0] == CLOSE_BRACE
  }

  lemma {:induction false} SkipBlankOver(blank: Bytes, s: Bytes)
    requires Blank(blank)
    ensures SkipBlank(blank + s) == SkipBlank(s)
  {
    if blank == [] {
      assert blank + s == s;
    } else {
      assert (blank + s)[1..] == blank[1..] + s;
      SkipBlankOver(blank[1..], s);
    }
  }

  lemma FollowsEndsScalar(s: Bytes)
    requires Follows(s)
    ensures s == [] || !IsScalarByte(s[0])
    ensures !OpensContainerAfterColon(s)
  {
  }

  lemma TextStart(v: Value)
    requires Valid(v)
    ensures Text(v) != [] && !IsBlank(Text(v)[0]) && (StartsContainer(Text(v)) <==> IsContainer(v))
  {
    if v.Num? {
      NumberBytes(v.number);
    }
  }

  /** A key opens a container exactly when its value is one. */
  lemma KeyOpens(afterKey: Bytes, beforeValue: Bytes, v: Value, s: Bytes)
    requires Blank(afterKey) && Blank(beforeValue) && Valid(v)
    ensures OpensContainerAfterColon(afterKey + ([COLON] + (beforeValue + (Text(v) + s)))) <==> IsContainer(v)
  {
    var t := [COLON] + (beforeValue + (Text(v) + s));
    SkipBlankOver(afterKey, t);
    assert SkipBlank(t) == t && t[1..] == beforeValue + (Text(v) + s);
    SkipBlankOver(beforeValue, Text(v) + s);
    TextStart(v);
    assert (Text(v) + s)[0] == Text(v)[0];
  }
}
