/** The forms a refusal's log must have to say that a nonce is held or used, each as a whole text. */
module RefusalForms {
  import opened Arithmetic
  import opened Wrappers
  import opened Text
  import opened Nonces
  import opened Submissions

  /** The node holds the nonce for a transaction of some signer, whose DID ends at the first whitespace. */
  predicate HeldText(s: string, nonce: u64, did: string, space: char, tail: string) {
    && NoWhitespace(did) && IsWhitespace(space)
    && s == "Nonce " + Decimal(nonce) + " of " + did + [space] + "is held by a pending transaction" + tail
  }

  /** The node has used the nonce, or it is at most the base, or the transaction spent it. */
  predicate UsedText(s: string, nonce: u64, other: string) {
    || s == "Invalid nonce: " + Decimal(nonce) + " already used" + other
    || s == "Invalid nonce: " + Decimal(nonce) + " <= base nonce" + other
    || s == other + "(nonce " + Decimal(nonce) + " spent)"
  }

  lemma {:induction false} FirstWhitespace(s: string, did: string, space: char, tail: string)
    requires NoWhitespace(did) && IsWhitespace(space) && s == did + [space] + tail
    ensures AfterWhitespace(s) == Some(tail)
  {
    if did == "" {
      assert s == [space] + tail;
    } else {
      assert s[1..] == did[1..] + [space] + tail;
      FirstWhitespace(s[1..], did[1..], space, tail);
    }
  }

  lemma {:induction false} SplitAtWhitespace(s: string) returns (did: string, space: char)
    requires AfterWhitespace(s).Some?
    ensures NoWhitespace(did) && IsWhitespace(space) && s == did + [space] + AfterWhitespace(s).value
  {
    if IsWhitespace(s[0]) {
      did, space := "", s[0];
    } else {
      var rest: string;
      rest, space := SplitAtWhitespace(s[1..]);
      did := [s[0]] + rest;
    }
  }

  /** What the log starts with, and the whole text it belongs to. */
  lemma HeldStart(nonce: u64, did: string, space: char, tail: string)
    ensures "Nonce " + Decimal(nonce) + " of " + did + [space] + "is held by a pending transaction" + tail
         == Numbered(NONCE, nonce, OF) + (did + [space] + (HELD + tail))
  {
    hide Decimal;
    var number := Decimal(nonce);
    assert " of " == " " + OF;
    assert "Nonce " + number + " of " == NONCE + (number + " " + OF);
  }

  lemma HeldHasText(s: string, nonce: u64) returns (did: string, space: char, tail: string)
    requires SaysHeld(s, nonce)
    ensures HeldText(s, nonce, did, space, tail)
  {
    hide AfterWhitespace, IsWhitespace, Numbered;
    var start := Numbered(NONCE, nonce, OF);
    var rest := s[|start|..];
    var said := AfterWhitespace(rest).value;
    did, space := SplitAtWhitespace(rest);
    tail := said[|HELD|..];
    HeldStart(nonce, did, space, tail);
    assert s == start + rest && said == HELD + tail;
  }

  lemma TextIsHeld(s: string, nonce: u64, did: string, space: char, tail: string)
    requires HeldText(s, nonce, did, space, tail)
    ensures SaysHeld(s, nonce)
  {
    hide AfterWhitespace, IsWhitespace, Numbered;
    var start, rest := Numbered(NONCE, nonce, OF), did + [space] + (HELD + tail);
    HeldStart(nonce, did, space, tail);
    FirstWhitespace(rest, did, space, HELD + tail);
    assert s[..|start|] == start && s[|start|..] == rest;
    assert (HELD + tail)[..|HELD|] == HELD;
  }

  lemma UsedStarts(nonce: u64, other: string)
    ensures "Invalid nonce: " + Decimal(nonce) + " already used" + other
         == Numbered(INVALID, nonce, ALREADY_USED) + other
    ensures "Invalid nonce: " + Decimal(nonce) + " <= base nonce" + other
         == Numbered(INVALID, nonce, BELOW_BASE) + other
    ensures other + "(nonce " + Decimal(nonce) + " spent)" == other + Spent(nonce)
  {
    hide Decimal;
    var number := Decimal(nonce);
    assert " already used" == " " + ALREADY_USED && " <= base nonce" == " " + BELOW_BASE;
    assert "Invalid nonce: " + number + " already used" == INVALID + (number + " " + ALREADY_USED);
    assert "Invalid nonce: " + number + " <= base nonce" == INVALID + (number + " " + BELOW_BASE);
    assert "(nonce " == "(nonce" + [' '];
    assert "(nonce " + number + " spent)" == Spent(nonce);
    assert other + "(nonce " + number + " spent)" == other + ("(nonce " + number + " spent)");
  }

  lemma UsedHasText(s: string, nonce: u64) returns (other: string)
    requires SaysUsed(s, nonce)
    ensures UsedText(s, nonce, other)
  {
    hide Numbered, Spent, StartsWith, EndsWith;
    StartIsText(s, Numbered(INVALID, nonce, ALREADY_USED));
    StartIsText(s, Numbered(INVALID, nonce, BELOW_BASE));
    EndIsText(s, Spent(nonce));
    other :| s == Numbered(INVALID, nonce, ALREADY_USED) + other || s == Numbered(INVALID, nonce, BELOW_BASE) + other
             || s == other + Spent(nonce);
    UsedStarts(nonce, other);
  }

  lemma TextIsUsed(s: string, nonce: u64, other: string)
    requires UsedText(s, nonce, other)
    ensures SaysUsed(s, nonce)
  {
    hide Numbered, Spent, StartsWith, EndsWith;
    StartIsText(s, Numbered(INVALID, nonce, ALREADY_USED));
    StartIsText(s, Numbered(INVALID, nonce, BELOW_BASE));
    EndIsText(s, Spent(nonce));
    UsedStarts(nonce, other);
  }

  /**
   What a refusal says of a nonce, form by form: it is held exactly when the log, trimmed, is a text that says
   so; used exactly when it is a text that says that, and not the other; and every other log, whatever it
   quotes, gives the nonce back.
   */
  lemma RefusalIsExact(log: string, nonce: u64)
    ensures var held := exists did, space, tail :: HeldText(Trim(log), nonce, did, space, tail);
            var used := exists other :: UsedText(Trim(log), nonce, other);
            && (RefusalOutcome(log, nonce) == Held <==> held)
            && (RefusalOutcome(log, nonce) == Used <==> used && !held)
            && (RefusalOutcome(log, nonce) == Free <==> !used && !held)
  {
    hide SaysHeld, SaysUsed, HeldText, UsedText, Trim;
    var s := Trim(log);
    if SaysHeld(s, nonce) {
      var did, space, tail := HeldHasText(s, nonce);
    }
    if did, space, tail :| HeldText(s, nonce, did, space, tail) {
      TextIsHeld(s, nonce, did, space, tail);
    }
    if SaysUsed(s, nonce) {
      var other := UsedHasText(s, nonce);
    }
    if other :| UsedText(s, nonce, other) {
      TextIsUsed(s, nonce, other);
    }
  }
}
