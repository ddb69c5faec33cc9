/** The flat scan of a JSON text counts the cost of its tree, with the discount of the numbers under `proof`. */
module JsonAgreement {
  import opened ByteStrings
  import opened JsonScan
  import opened JsonCost

  /** The count after something of cost `cost`, `numbers` of it numbers, at the same depth. */
  function Add(c: Count, cost: nat, numbers: nat): Count
    requires numbers <= cost
  {
    if c.underProof then
      c.(units := c.units + cost - numbers + (c.cheap + numbers) / PROOF_NUMBERS_PER_UNIT,
      cheap := (c.cheap + numbers) % PROOF_NUMBERS_PER_UNIT)
    else c.(units := c.units + cost)
  }

  lemma AddTwice(c: Count, cost: nat, numbers: nat, cost': nat, numbers': nat)
    requires numbers <= cost && numbers' <= cost'
    ensures Add(Add(c, cost, numbers), cost', numbers') == Add(c, cost + cost', numbers + numbers')
  {
  }

  /** At a depth where no key opens a proof and no end of a container closes one. */
  predicate Deep(c: Count, budget: Budget) {
    c.cheap < PROOF_NUMBERS_PER_UNIT && (c.depth >= 2 || (budget.Full? && !c.underProof))
  }

  lemma FollowsBlank(blank: Bytes, s: Bytes)
    requires Blank(blank) && Follows(s)
    ensures Follows(blank + s)
  {
    SkipBlankOver(blank, s);
  }

  /** An end of a container follows a value. */
  lemma EndFollows(b: byte, s: Bytes)
    requires b == CLOSE_BRACKET || b == CLOSE_BRACE || b == COMMA
    ensures Follows([b] + s)
  {
  }

  function Body(v: Value): Bytes
    requires IsContainer(v)
  {
    if v.Array? then ItemsText(v.items) else MembersText(v.members)
  }

  function Close(v: Value): byte
    requires IsContainer(v)
  {
    if v.Array? then CLOSE_BRACKET else CLOSE_BRACE
  }

  /** A container is read as its opening, then its body and its end. */
  lemma ContainerOpens(v: Value, s: Bytes, c: Count, budget: Budget)
    requires IsContainer(v) && Valid(v)
    ensures Scanned(Text(v) + s, c, budget) == Scanned(Body(v) + ([Close(v)] + s), CountOpen(c), budget)
    ensures Follows([Close(v)] + s)
  {
    hide Scanned;
    var open := if v.Array? then OPEN_BRACKET else OPEN_BRACE;
    var inside := Body(v) + ([Close(v)] + s);
    assert Text(v) + s == [open] + (v.blank + inside);
    OpenScans(open, v.blank + inside, c, budget);
    BlankScans(v.blank, inside, CountOpen(c), budget);
    EndFollows(Close(v), s);
  }

  /** Inside and back out of a container, where its end closes no proof. */
  lemma DeepContainer(c: Count, budget: Budget, cost: nat, numbers: nat)
    requires Deep(c, budget) && numbers <= cost
    ensures Deep(CountOpen(c), budget)
    ensures CountClose(Add(CountOpen(c), cost, numbers)) == Add(c, CONTAINER_COST + cost, numbers)
  {
  }

  /** A string, number or literal costs its unit, or a number under a proof its share of one. */
  lemma ScalarValue(v: Value, s: Bytes, c: Count, budget: Budget)
    requires Valid(v) && Follows(s) && !IsContainer(v)
    ensures Scanned(Text(v) + s, c, budget)
         == Scanned(s, if v.Num? then CountNumber(c) else c.(units := c.units + 1), budget)
  {
    hide Scanned, Follows, OpensContainerAfterColon;
    FollowsEndsScalar(s);
    match v
    case Lit(l) => LiteralScans(l, s, c, budget);
    case Num(n) => NumberScans(n, s, c, budget);
    case Str(raw) => StringScans(raw, s, c, budget);
  }

  lemma {:induction false} DeepValue(v: Value, s: Bytes, c: Count, budget: Budget)
    requires Valid(v) && Follows(s) && Deep(c, budget)
    ensures Scanned(Text(v) + s, c, budget) == Scanned(s, Add(c, Cost(v), Numbers(v)), budget)
    decreases v
  {
    hide Scanned, Follows, OpensContainerAfterColon, Text, ItemsText, MembersText, LiteralText, NumberText, CountOpen,
      CountClose;
    match v
    case Array(_, items) =>
      ContainerOpens(v, s, c, budget);
      DeepContainer(c, budget, ItemsCost(items), ItemsNumbers(items));
      DeepItems(items, [CLOSE_BRACKET] + s, CountOpen(c), budget);
      CloseScans(CLOSE_BRACKET, s, Add(CountOpen(c), ItemsCost(items), ItemsNumbers(items)), budget);
    case Object(_, members) =>
      ContainerOpens(v, s, c, budget);
      DeepContainer(c, budget, MembersCost(members), MembersNumbers(members));
      DeepMembers(members, [CLOSE_BRACE] + s, CountOpen(c), budget);
      CloseScans(CLOSE_BRACE, s, Add(CountOpen(c), MembersCost(members), MembersNumbers(members)), budget);
    case _ => ScalarValue(v, s, c, budget);
  }

  lemma AddKeepsDeep(c: Count, budget: Budget, cost: nat, numbers: nat)
    requires Deep(c, budget) && numbers <= cost
    ensures Deep(Add(c, cost, numbers), budget) && Add(c, 0, 0) == c
  {
  }

  lemma {:induction false} DeepItems(items: Items, s: Bytes, c: Count, budget: Budget)
    requires ValidItems(items) && Follows(s) && Deep(c, budget)
    ensures Scanned(ItemsText(items) + s, c, budget)
         == Scanned(s, Add(c, ItemsCost(items), ItemsNumbers(items)), budget)
    decreases items
  {
    hide Scanned, Follows, Text, Add;
    AddKeepsDeep(c, budget, 0, 0);
    match items
    case NoItems => assert ItemsText(items) + s == s;
    case Items(before, value, after, rest) =>
      var next := Add(c, Cost(value), Numbers(value));
      var more := if rest.NoItems? then s else [COMMA] + (ItemsText(rest) + s);
      assert ItemsText(items) + s == before + (Text(value) + (after + more));
      AddKeepsDeep(c, budget, Cost(value), Numbers(value));
      EndFollows(COMMA, ItemsText(rest) + s);
      FollowsBlank(after, more);
      BlankScans(before, Text(value) + (after + more), c, budget);
      DeepValue(value, after + more, c, budget);
      BlankScans(after, more, next, budget);
      if !rest.NoItems? {
        IdleByte(COMMA, ItemsText(rest) + s, next, budget);
        DeepItems(rest, s, next, budget);
        AddTwice(c, Cost(value), Numbers(value), ItemsCost(rest), ItemsNumbers(rest));
      }
  }

  /** The count after a key: one unit, and a proof opened if it is the one and its value a container. */
  function CountKey(c: Count, key: Bytes, v: Value, budget: Budget): Count {
    var proof := budget.UnderProof? && c.depth == 1 && key == PROOF_KEY && IsContainer(v);
    c.(units := c.units + 1, underProof := c.underProof || proof)
  }

  /** The text of a member's value with what comes after it, `s` after the last member. */
  function ValueOn(m: Members, s: Bytes): Bytes
    requires m.Members?
  {
    Text(m.value) + (m.after + MoreMembers(m, s))
  }

  function MoreMembers(m: Members, s: Bytes): Bytes
    requires m.Members?
  {
    if m.rest.NoMembers? then s else [COMMA] + (MembersText(m.rest) + s)
  }

  lemma MemberText(m: Members, s: Bytes)
    requires m.Members?
    ensures MembersText(m) + s
         == m.before + ([QUOTE] + (m.key + [QUOTE]) + (m.afterKey + ([COLON] + (m.beforeValue + ValueOn(m, s)))))
  {
    hide Text;
    var more := if m.rest.NoMembers? then [] else [COMMA] + MembersText(m.rest);
    assert more + s == MoreMembers(m, s);
    var value := m.beforeValue + (Text(m.value) + (m.after + more));
    assert MembersText(m) == m.before + ([QUOTE] + (m.key + [QUOTE]) + (m.afterKey + ([COLON] + value)));
    Regroup(m.before, [QUOTE] + (m.key + [QUOTE]), m.afterKey, m.beforeValue, Text(m.value), m.after, more, s);
  }

  lemma Regroup(a: Bytes, b: Bytes, c: Bytes, d: Bytes, e: Bytes, f: Bytes, more: Bytes, s: Bytes)
    ensures a + (b + (c + ([COLON] + (d + (e + (f + more)))))) + s
         == a + (b + (c + ([COLON] + (d + (e + (f + (more + s)))))))
  {
    assert e + (f + more) + s == e + (f + (more + s));
    assert [COLON] + (d + (e + (f + more))) + s == [COLON] + (d + (e + (f + more) + s));
    assert c + ([COLON] + (d + (e + (f + more)))) + s == c + ([COLON] + (d + (e + (f + more))) + s);
  }

  /** A member is read as its key, then its value with what comes after. */
  lemma MemberScans(m: Members, s: Bytes, c: Count, budget: Budget)
    requires m.Members? && ValidMembers(m)
    ensures Scanned(MembersText(m) + s, c, budget)
         == Scanned(ValueOn(m, s), CountKey(c, m.key, m.value, budget), budget)
  {
    hide Scanned, OpensContainerAfterColon, Text, MembersText;
    MemberText(m, s);
    var value := ValueOn(m, s);
    var tail := m.afterKey + ([COLON] + (m.beforeValue + value));
    var keyed := CountKey(c, m.key, m.value, budget);
    BlankScans(m.before, [QUOTE] + (m.key + [QUOTE]) + tail, c, budget);
    StringScans(m.key, tail, c, budget);
    KeyOpens(m.afterKey, m.beforeValue, m.value, m.after + MoreMembers(m, s));
    BlankScans(m.afterKey, [COLON] + (m.beforeValue + value), keyed, budget);
    IdleByte(COLON, m.beforeValue + value, keyed, budget);
    BlankScans(m.beforeValue, value, keyed, budget);
  }

  lemma MoreFollows(m: Members, s: Bytes)
    requires m.Members? && ValidMembers(m) && Follows(s)
    ensures Follows(m.after + MoreMembers(m, s))
  {
    hide Follows, MembersText;
    EndFollows(COMMA, MembersText(m.rest) + s);
    FollowsBlank(m.after, MoreMembers(m, s));
  }

  lemma DeepKey(c: Count, key: Bytes, v: Value, budget: Budget)
    requires Deep(c, budget)
    ensures CountKey(c, key, v, budget) == Add(c, 1, 0)
  {
  }

  lemma {:induction false} DeepMembers(members: Members, s: Bytes, c: Count, budget: Budget)
    requires ValidMembers(members) && Follows(s) && Deep(c, budget)
    ensures Scanned(MembersText(members) + s, c, budget)
         == Scanned(s, Add(c, MembersCost(members), MembersNumbers(members)), budget)
    decreases members
  {
    hide Scanned, Follows, Text, Add, CountKey;
    AddKeepsDeep(c, budget, 1, 0);
    if members.NoMembers? {
      assert MembersText(members) + s == s;
    } else {
      hide MembersText;
      var value, rest := members.value, members.rest;
      var keyed, next := Add(c, 1, 0), Add(c, 1 + Cost(value), Numbers(value));
      MemberScans(members, s, c, budget);
      DeepKey(c, members.key, value, budget);
      MoreFollows(members, s);
      DeepValue(value, members.after + MoreMembers(members, s), keyed, budget);
      AddTwice(c, 1, 0, Cost(value), Numbers(value));
      BlankScans(members.after, MoreMembers(members, s), next, budget);
      AddKeepsDeep(c, budget, 1 + Cost(value), Numbers(value));
      AddKeepsDeep(next, budget, 0, 0);
      if !rest.NoMembers? {
        IdleByte(COMMA, MembersText(rest) + s, next, budget);
        DeepMembers(rest, s, next, budget);
        AddTwice(c, 1 + Cost(value), Numbers(value), MembersCost(rest), MembersNumbers(rest));
      }
    }
  }

  // ---------- One level below the top ----------

  /** Inside and back out of a container one level down, the end of which ends any proof. */
  lemma ShallowContainer(c: Count, budget: Budget, cost: nat, numbers: nat)
    requires c.depth == 1 && c.cheap < PROOF_NUMBERS_PER_UNIT && numbers <= cost
    ensures Deep(CountOpen(c), budget)
    ensures CountClose(Add(CountOpen(c), cost, numbers)) == Add(c, CONTAINER_COST + cost, numbers).(underProof := false)
  {
  }

  lemma ShallowScalar(c: Count, v: Value)
    requires !c.underProof && !IsContainer(v)
    ensures CountNumber(c) == c.(units := c.units + 1) == Add(c, Cost(v), Numbers(v)).(underProof := false)
  {
  }

  lemma ShallowArray(v: Value, s: Bytes, c: Count, budget: Budget)
    requires Valid(v) && Follows(s) && budget.UnderProof? && v.Array?
    requires c.depth == 1 && c.cheap < PROOF_NUMBERS_PER_UNIT
    ensures Scanned(Text(v) + s, c, budget) == Scanned(s, Add(c, Cost(v), Numbers(v)).(underProof := false), budget)
  {
    hide Scanned, Follows, OpensContainerAfterColon, Text, ItemsText, MembersText, CountOpen, CountClose, Add,
      CountNumber;
    var items := v.items;
    ContainerOpens(v, s, c, budget);
    ShallowContainer(c, budget, ItemsCost(items), ItemsNumbers(items));
    DeepItems(items, [CLOSE_BRACKET] + s, CountOpen(c), budget);
    CloseScans(CLOSE_BRACKET, s, Add(CountOpen(c), ItemsCost(items), ItemsNumbers(items)), budget);
  }

  lemma ShallowObject(v: Value, s: Bytes, c: Count, budget: Budget)
    requires Valid(v) && Follows(s) && budget.UnderProof? && v.Object?
    requires c.depth == 1 && c.cheap < PROOF_NUMBERS_PER_UNIT
    ensures Scanned(Text(v) + s, c, budget) == Scanned(s, Add(c, Cost(v), Numbers(v)).(underProof := false), budget)
  {
    hide Scanned, Follows, OpensContainerAfterColon, Text, ItemsText, MembersText, CountOpen, CountClose, Add,
      CountNumber;
    var members := v.members;
    ContainerOpens(v, s, c, budget);
    ShallowContainer(c, budget, MembersCost(members), MembersNumbers(members));
    DeepMembers(members, [CLOSE_BRACE] + s, CountOpen(c), budget);
    CloseScans(CLOSE_BRACE, s, Add(CountOpen(c), MembersCost(members), MembersNumbers(members)), budget);
  }

  /** A value one level down; if it is a container it ends any proof its key opened. */
  lemma ShallowValue(v: Value, s: Bytes, c: Count, budget: Budget)
    requires Valid(v) && Follows(s) && budget.UnderProof?
    requires c.depth == 1 && c.cheap < PROOF_NUMBERS_PER_UNIT && (c.underProof ==> IsContainer(v))
    ensures Scanned(Text(v) + s, c, budget) == Scanned(s, Add(c, Cost(v), Numbers(v)).(underProof := false), budget)
  {
    hide Scanned, Follows, Text, Add, CountNumber;
    match v
    case Array(_, _) => ShallowArray(v, s, c, budget);
    case Object(_, _) => ShallowObject(v, s, c, budget);
    case _ =>
      ScalarValue(v, s, c, budget);
      ShallowScalar(c, v);
  }

  /** The count outside any proof after something of cost `cost` with `numbers` of its numbers under proofs. */
  function Discount(c: Count, cost: nat, numbers: nat): Count
    requires numbers <= cost
  {
    Add(c.(underProof := true), cost, numbers).(underProof := false)
  }

  predicate Outside(c: Count) {
    c.depth == 1 && c.cheap < PROOF_NUMBERS_PER_UNIT && !c.underProof
  }

  lemma DiscountTwice(c: Count, cost: nat, numbers: nat, cost': nat, numbers': nat)
    requires numbers <= cost && numbers' <= cost' && Outside(c)
    ensures Outside(Discount(c, cost, numbers)) && Discount(c, 0, 0) == c
    ensures Discount(Discount(c, cost, numbers), cost', numbers') == Discount(c, cost + cost', numbers + numbers')
  {
    AddTwice(c.(underProof := true), cost, numbers, cost', numbers');
  }

  lemma {:induction false} TopItems(items: Items, s: Bytes, c: Count, budget: Budget)
    requires ValidItems(items) && Follows(s) && budget.UnderProof? && Outside(c)
    ensures Scanned(ItemsText(items) + s, c, budget) == Scanned(s, Discount(c, ItemsCost(items), 0), budget)
    decreases items
  {
    hide Scanned, Follows;
    match items
    case NoItems => assert ItemsText(items) + s == s;
    case Items(before, value, after, rest) =>
      var next := Discount(c, Cost(value), 0);
      var more := if rest.NoItems? then s else [COMMA] + (ItemsText(rest) + s);
      assert ItemsText(items) + s == before + (Text(value) + (after + more));
      EndFollows(COMMA, ItemsText(rest) + s);
      FollowsBlank(after, more);
      BlankScans(before, Text(value) + (after + more), c, budget);
      ShallowValue(value, after + more, c, budget);
      assert Add(c, Cost(value), Numbers(value)).(underProof := false) == next;
      BlankScans(after, more, next, budget);
      if !rest.NoItems? {
        IdleByte(COMMA, ItemsText(rest) + s, next, budget);
        DiscountTwice(c, Cost(value), 0, ItemsCost(rest), 0);
        TopItems(rest, s, next, budget);
      }
  }

  lemma MemberDiscount(c: Count, key: Bytes, v: Value)
    requires Outside(c)
    ensures var keyed := CountKey(c, key, v, UnderProof);
            && keyed.depth == 1 && keyed.cheap < PROOF_NUMBERS_PER_UNIT && (keyed.underProof ==> IsContainer(v))
            && Add(keyed, Cost(v), Numbers(v)).(underProof := false)
               == Discount(c, 1 + Cost(v), MemberProofNumbers(key, v))
  {
  }

  lemma {:induction false} TopMembers(members: Members, s: Bytes, c: Count, budget: Budget)
    requires ValidMembers(members) && Follows(s) && budget.UnderProof? && Outside(c)
    ensures Scanned(MembersText(members) + s, c, budget)
         == Scanned(s, Discount(c, MembersCost(members), ProofNumbers(members)), budget)
    decreases members
  {
    hide Scanned, Follows, Text, CountKey, Discount, Add, MemberProofNumbers, Cost;
    DiscountTwice(c, 0, 0, 0, 0);
    if members.NoMembers? {
      assert MembersText(members) + s == s;
    } else {
      hide MembersText;
      var key, value, rest := members.key, members.value, members.rest;
      var proof := MemberProofNumbers(key, value);
      var next := Discount(c, 1 + Cost(value), proof);
      MemberScans(members, s, c, budget);
      MoreFollows(members, s);
      MemberDiscount(c, key, value);
      ShallowValue(value, members.after + MoreMembers(members, s), CountKey(c, key, value, budget), budget);
      BlankScans(members.after, MoreMembers(members, s), next, budget);
      DiscountTwice(c, 1 + Cost(value), proof, MembersCost(rest), ProofNumbers(rest));
      if !rest.NoMembers? {
        IdleByte(COMMA, MembersText(rest) + s, next, budget);
        TopMembers(rest, s, next, budget);
      }
    }
  }

  // ---------- The document ----------

  /** Under `Full`, the scan of any JSON text counts exactly the cost of its tree. */
  lemma FullScanIsCost(d: Document)
    requires ValidDocument(d)
    ensures Scanned(DocumentText(d), NOTHING, Full).units == Cost(d.value)
  {
    hide Scanned;
    var tail := d.after + [];
    assert d.after == tail;
    assert Follows(tail) by {
      FollowsBlank(d.after, []);
    }
    BlankScans(d.before, Text(d.value) + d.after, NOTHING, Full);
    DeepValue(d.value, d.after, NOTHING, Full);
    var c := Add(NOTHING, Cost(d.value), Numbers(d.value));
    BlankScans(d.after, [], c, Full);
    NothingLeft(c, Full);
  }

  /**
   Under `UnderProof`, it counts the cost less the N numbers under top-level `proof` members, plus one for
   every sixteen of them.
   */
  lemma ProofScanIsDiscounted(d: Document)
    requires ValidDocument(d)
    ensures var n := DocumentProofNumbers(d);
            Scanned(DocumentText(d), NOTHING, UnderProof).units == Cost(d.value) - n + n / 16
  {
    hide Scanned;
    assert d.after == d.after + [];
    assert Follows(d.after) by {
      FollowsBlank(d.after, []);
    }
    BlankScans(d.before, Text(d.value) + d.after, NOTHING, UnderProof);
    TopValue(d.value, d.after);
    var c := TopCount(d.value);
    BlankScans(d.after, [], c, UnderProof);
    NothingLeft(c, UnderProof);
  }

  /** The count after the document's value. */
  function TopCount(v: Value): Count {
    var n := if v.Object? then ProofNumbers(v.members) else 0;
    Count(Cost(v) - n + n / 16, 0, n % 16, false)
  }

  lemma TopValue(v: Value, s: Bytes)
    requires Valid(v) && Follows(s)
    ensures Scanned(Text(v) + s, NOTHING, UnderProof) == Scanned(s, TopCount(v), UnderProof)
  {
    hide Scanned, Follows, OpensContainerAfterColon, Text, ItemsText, MembersText, LiteralText, NumberText;
    var begun := CountOpen(NOTHING);
    match v
    case Array(_, items) =>
      ContainerOpens(v, s, NOTHING, UnderProof);
      TopItems(items, [CLOSE_BRACKET] + s, begun, UnderProof);
      CloseScans(CLOSE_BRACKET, s, Discount(begun, ItemsCost(items), 0), UnderProof);
    case Object(_, members) =>
      ContainerOpens(v, s, NOTHING, UnderProof);
      TopMembers(members, [CLOSE_BRACE] + s, begun, UnderProof);
      CloseScans(CLOSE_BRACE, s, Discount(begun, MembersCost(members), ProofNumbers(members)), UnderProof);
    case _ => ScalarValue(v, s, NOTHING, UnderProof);
  }
}
