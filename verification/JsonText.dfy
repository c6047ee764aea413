/**
  JSON values, the text they are rendered to, and the order in which the database
  gives their keys back: a `jsonb` column stores members by the length of the key
  and then by its bytes, and the runtime lists keys that are array indices first.
 */
module JsonText {
  import opened Decimals
  import opened HashText
  import opened Optional
  import opened Utf8

  datatype Json =
    | JNull
    | JBool(b: bool)
    | JNum(n: real)
    | JString(s: string)
    | JArray(items: Items)
    | JObject(members: Members)

  datatype Items = NoItems | Item(value: Json, rest: Items)

  datatype Members = NoMembers | Member(key: string, value: Json, rest: Members)

  // ------------------------------------------------------------------ rendering

  const HEX := "0123456789abcdef"

  /** One more character in front. */
  function Then(c: char, after: Text): (t: Text)
    ensures t != [] && t[0] == Ch(c)
  {
    [Ch(c)] + after
  }

  lemma ThenInjective(c: char, x: Text, d: char, y: Text)
    requires Then(c, x) == Then(d, y)
    ensures c == d && x == y
  {
    assert x == Then(c, x)[1..] && y == Then(d, y)[1..];
  }

  /** The letter after the backslash, for a character that needs one. */
  function Mark(c: char): (m: Option<char>)
  {
    if c == '\"' || c == '\\' then Some(c)
    else if c == '\U{8}' then Some('b') else if c == '\t' then Some('t') else if c == '\n' then Some('n')
    else if c == '\U{C}' then Some('f') else if c == '\r' then Some('r') else if c < ' ' then Some('u')
    else None
  }

  /** The characters that are written with a backslash, by code point, and the letter behind it. */
  lemma MarkIs(c: char)
    ensures Mark(c) ==
      if c as int == 34 || c as int == 92 then Some(c)
      else if c as int >= 32 then None
      else if c as int == 8 then Some('b')
      else if c as int == 9 then Some('t')
      else if c as int == 10 then Some('n')
      else if c as int == 12 then Some('f')
      else if c as int == 13 then Some('r')
      else Some('u')
  {
  }

  /** The text after the mark. */
  function AfterMark(c: char, after: Text): (t: Text)
  {
    if Mark(c) == Some('u') then
      Then('0', Then('0', Then(HEX[c as int / 16], Then(HEX[c as int % 16], after)))) else after
  }

  /** A character in a string, and the text after it. */
  function Escape(c: char, after: Text): (t: Text)
  {
    if Mark(c).None? then Then(c, after) else Then('\\', Then(Mark(c).value, AfterMark(c, after)))
  }

  /** The rest of a string, its closing quotation mark, and the text after it. */
  function StringRest(s: string, after: Text): (t: Text)
  {
    if s == "" then Then('\"', after) else Escape(s[0], StringRest(s[1..], after))
  }

  function Quoted(s: string, after: Text): (t: Text)
  {
    Then('\"', StringRest(s, after))
  }

  function Word(s: string, after: Text): (t: Text)
  {
    Str(s) + after
  }

  /** The text of a value and what comes after it. */
  function Rendered(j: Json, after: Text): (t: Text)
    decreases j, 2
  {
    match j
    case JNull => Word("null", after)
    case JBool(b) => Word(if b then "true" else "false", after)
    case JNum(n) => [Number(n)] + after
    case JString(s) => Quoted(s, after)
    case JArray(items) =>
      Then('[', if items.NoItems? then Then(']', after) else Rendered(items.value, ItemsRest(items.rest, after)))
    case JObject(members) =>
      Then('{', if members.NoMembers? then Then('}', after) else Pair(members, MembersRest(members.rest, after)))
  }

  function ItemsRest(items: Items, after: Text): (t: Text)
    decreases items, 0
  {
    match items
    case NoItems => Then(']', after)
    case Item(value, rest) => Then(',', Rendered(value, ItemsRest(rest, after)))
  }

  function Pair(members: Members, after: Text): (t: Text)
    requires members.Member?
    decreases members, 0
  {
    Quoted(members.key, Then(':', Rendered(members.value, after)))
  }

  function MembersRest(members: Members, after: Text): (t: Text)
    decreases members, 1
  {
    match members
    case NoMembers => Then('}', after)
    case Member(_, _, rest) => Then(',', Pair(members, MembersRest(rest, after)))
  }

  function Render(j: Json): (t: Text)
  {
    Rendered(j, [])
  }

  // ------------------------------------------------------------------ rendering is injective

  lemma HexInjective(a: nat, b: nat)
    requires a < 16 && b < 16 && HEX[a] == HEX[b]
    ensures a == b
  {
  }

  lemma ControlIsPrefixFree(c: char, x: Text, d: char, y: Text)
    requires c < ' ' && d < ' '
    requires Then(HEX[c as int / 16], Then(HEX[c as int % 16], x)) ==
      Then(HEX[d as int / 16], Then(HEX[d as int % 16], y))
    ensures c == d && x == y
  {
    ThenInjective(HEX[c as int / 16], Then(HEX[c as int % 16], x), HEX[d as int / 16], Then(HEX[d as int % 16], y));
    ThenInjective(HEX[c as int % 16], x, HEX[d as int % 16], y);
    HexInjective(c as int / 16, d as int / 16);
    HexInjective(c as int % 16, d as int % 16);
  }

  lemma MarkInjective(c: char, d: char)
    requires Mark(c).Some? && Mark(c) == Mark(d) && Mark(c) != Some('u')
    ensures c == d
  {
  }

  lemma AfterMarkInjective(c: char, x: Text, d: char, y: Text)
    requires Mark(c) == Some('u') && Mark(d) == Some('u') && AfterMark(c, x) == AfterMark(d, y)
    ensures c == d && x == y
  {
    var v, w := Then(HEX[c as int / 16], Then(HEX[c as int % 16], x)),
        Then(HEX[d as int / 16], Then(HEX[d as int % 16], y));
    ThenInjective('0', Then('0', v), '0', Then('0', w));
    ThenInjective('0', v, '0', w);
    ControlIsPrefixFree(c, x, d, y);
  }

  lemma UnmarkedIsItself(c: char)
    requires Mark(c).None?
    ensures c != '\\' && c != '\"'
  {
  }

  lemma SameMark(c: char, x: Text, d: char, y: Text)
    requires Escape(c, x) == Escape(d, y)
    ensures Mark(c) == Mark(d)
    ensures Mark(c).Some? ==> AfterMark(c, x) == AfterMark(d, y)
    ensures Mark(c).None? ==> c == d && x == y
  {
    assert Escape(c, x)[0] == Escape(d, y)[0];
    if Mark(c).None? {
      UnmarkedIsItself(c);
      ThenInjective(c, x, d, y);
    } else if Mark(d).None? {
      UnmarkedIsItself(d);
    } else {
      var p, q := Then(Mark(c).value, AfterMark(c, x)), Then(Mark(d).value, AfterMark(d, y));
      ThenInjective('\\', p, '\\', q);
      ThenInjective(Mark(c).value, AfterMark(c, x), Mark(d).value, AfterMark(d, y));
    }
  }

  lemma EscapeIsPrefixFree(c: char, x: Text, d: char, y: Text)
    requires Escape(c, x) == Escape(d, y)
    ensures c == d && x == y
  {
    SameMark(c, x, d, y);
    if Mark(c) == Some('u') {
      AfterMarkInjective(c, x, d, y);
    } else if Mark(c).Some? {
      MarkInjective(c, d);
    }
  }

  lemma StringEndsWithQuote(s: string, after: Text)
    ensures StringRest(s, after) != [] && (StringRest(s, after)[0] == Ch('\"') <==> s == "")
  {
    if s != "" && Mark(s[0]).None? {
      UnmarkedIsItself(s[0]);
    }
  }

  lemma {:induction false} StringIsPrefixFree(s: string, x: Text, t: string, y: Text)
    requires StringRest(s, x) == StringRest(t, y)
    ensures s == t && x == y
    decreases |s|
  {
    StringEndsWithQuote(s, x);
    StringEndsWithQuote(t, y);
    if s == "" {
      ThenInjective('\"', x, '\"', y);
    } else {
      EscapeIsPrefixFree(s[0], StringRest(s[1..], x), t[0], StringRest(t[1..], y));
      StringIsPrefixFree(s[1..], x, t[1..], y);
      assert s == [s[0]] + s[1..] && t == [t[0]] + t[1..];
    }
  }

  lemma QuotedIsPrefixFree(s: string, x: Text, t: string, y: Text)
    requires Quoted(s, x) == Quoted(t, y)
    ensures s == t && x == y
  {
    ThenInjective('\"', StringRest(s, x), '\"', StringRest(t, y));
    StringIsPrefixFree(s, x, t, y);
  }

  lemma SameWord(s: string, x: Text, y: Text)
    requires Word(s, x) == Word(s, y)
    ensures x == y
  {
    assert x == Word(s, x)[|s|..] && y == Word(s, y)[|s|..];
  }

  /** The first symbol tells the kind of value. */
  function Head(j: Json): (s: Sym)
  {
    match j
    case JNull => Ch('n')
    case JBool(b) => if b then Ch('t') else Ch('f')
    case JNum(n) => Number(n)
    case JString(_) => Ch('\"')
    case JArray(_) => Ch('[')
    case JObject(_) => Ch('{')
  }

  lemma FirstSymbol(j: Json, after: Text)
    ensures Rendered(j, after) != [] && Rendered(j, after)[0] == Head(j)
  {
  }

  /** No rendering is the beginning of another: what follows a value cannot be mistaken for part of it. */
  lemma {:induction false} RenderIsPrefixFree(j: Json, x: Text, k: Json, y: Text)
    requires Rendered(j, x) == Rendered(k, y)
    ensures j == k && x == y
    decreases j, 2
  {
    FirstSymbol(j, x);
    FirstSymbol(k, y);
    match j {
      case JNull => SameWord("null", x, y);
      case JBool(b) => SameWord(if b then "true" else "false", x, y);
      case JNum(n) => assert x == ([Number(n)] + x)[1..] && y == ([Number(n)] + y)[1..];
      case JString(s) => QuotedIsPrefixFree(s, x, k.s, y);
      case JArray(items) => ArrayIsPrefixFree(items, x, k.items, y);
      case JObject(members) => ObjectIsPrefixFree(members, x, k.members, y);
    }
  }

  lemma {:induction false} ArrayIsPrefixFree(items: Items, x: Text, other: Items, y: Text)
    requires Rendered(JArray(items), x) == Rendered(JArray(other), y)
    ensures items == other && x == y
    decreases items, 1
  {
    var p := if items.NoItems? then Then(']', x) else Rendered(items.value, ItemsRest(items.rest, x));
    var q := if other.NoItems? then Then(']', y) else Rendered(other.value, ItemsRest(other.rest, y));
    ThenInjective('[', p, '[', q);
    if items.Item? {
      FirstSymbol(items.value, ItemsRest(items.rest, x));
    }
    if other.Item? {
      FirstSymbol(other.value, ItemsRest(other.rest, y));
    }
    if items.NoItems? {
      ThenInjective(']', x, ']', y);
    } else {
      RenderIsPrefixFree(items.value, ItemsRest(items.rest, x), other.value, ItemsRest(other.rest, y));
      ItemsArePrefixFree(items.rest, x, other.rest, y);
    }
  }

  lemma {:induction false} ItemsArePrefixFree(items: Items, x: Text, other: Items, y: Text)
    requires ItemsRest(items, x) == ItemsRest(other, y)
    ensures items == other && x == y
    decreases items, 0
  {
    assert ItemsRest(items, x)[0] == ItemsRest(other, y)[0];
    if items.NoItems? {
      ThenInjective(']', x, ']', y);
    } else {
      ThenInjective(',', Rendered(items.value, ItemsRest(items.rest, x)), ',',
          Rendered(other.value, ItemsRest(other.rest, y)));
      RenderIsPrefixFree(items.value, ItemsRest(items.rest, x), other.value, ItemsRest(other.rest, y));
      ItemsArePrefixFree(items.rest, x, other.rest, y);
    }
  }

  lemma {:induction false} ObjectIsPrefixFree(members: Members, x: Text, other: Members, y: Text)
    requires Rendered(JObject(members), x) == Rendered(JObject(other), y)
    ensures members == other && x == y
    decreases members, 3
  {
    var p := if members.NoMembers? then Then('}', x) else Pair(members, MembersRest(members.rest, x));
    var q := if other.NoMembers? then Then('}', y) else Pair(other, MembersRest(other.rest, y));
    ThenInjective('{', p, '{', q);
    assert p[0] == q[0];
    if members.NoMembers? {
      ThenInjective('}', x, '}', y);
    } else {
      PairIsPrefixFree(members, MembersRest(members.rest, x), other, MembersRest(other.rest, y));
      MembersArePrefixFree(members.rest, x, other.rest, y);
    }
  }

  lemma {:induction false} PairIsPrefixFree(members: Members, x: Text, other: Members, y: Text)
    requires members.Member? && other.Member? && Pair(members, x) == Pair(other, y)
    ensures members.key == other.key && members.value == other.value && x == y
    decreases members, 1
  {
    var v, w := Rendered(members.value, x), Rendered(other.value, y);
    QuotedIsPrefixFree(members.key, Then(':', v), other.key, Then(':', w));
    ThenInjective(':', v, ':', w);
    RenderIsPrefixFree(members.value, x, other.value, y);
  }

  lemma {:induction false} MembersArePrefixFree(members: Members, x: Text, other: Members, y: Text)
    requires MembersRest(members, x) == MembersRest(other, y)
    ensures members == other && x == y
    decreases members, 2
  {
    assert MembersRest(members, x)[0] == MembersRest(other, y)[0];
    if members.NoMembers? {
      ThenInjective('}', x, '}', y);
    } else {
      var v, w := MembersRest(members.rest, x), MembersRest(other.rest, y);
      ThenInjective(',', Pair(members, v), ',', Pair(other, w));
      PairIsPrefixFree(members, v, other, w);
      MembersArePrefixFree(members.rest, x, other.rest, y);
    }
  }

  /** Different values have different texts. */
  lemma RenderInjective(j: Json, k: Json)
    requires Render(j) == Render(k)
    ensures j == k
  {
    RenderIsPrefixFree(j, [], k, []);
  }

  // ------------------------------------------------------------------ the order of keys

  predicate LexLess(a: string, b: string)
  {
    b != "" && (a == "" || a[0] < b[0] || (a[0] == b[0] && LexLess(a[1..], b[1..])))
  }

  /** The common front and then the end of the one, or a smaller character. */
  lemma {:induction false} LexLessAt(a: string, b: string, i: nat)
    requires i <= |a| && i <= |b| && a[..i] == b[..i]
    ensures i < |a| && i < |b| && a[i] != b[i] ==> (LexLess(a, b) <==> a[i] < b[i])
    ensures i == |a| ==> (LexLess(a, b) <==> |a| < |b|)
    ensures i == |b| ==> !LexLess(a, b)
  {
    if i > 0 {
      assert a[0] == a[..i][0] && b[0] == b[..i][0];
      assert a[1..][..i - 1] == a[..i][1..] && b[1..][..i - 1] == b[..i][1..];
      LexLessAt(a[1..], b[1..], i - 1);
    }
  }

  lemma DigitsDecide(c: nat, x: nat, d: nat, y: nat, p: nat)
    requires x < p && y < p
    ensures c < d ==> c * p + x < d * p + y
    ensures d < c ==> d * p + y < c * p + x
  {
    if c < d {
      AtLeastOnce(d - c, p);
      assert d * p == c * p + (d - c) * p;
    }
    if d < c {
      AtLeastOnce(c - d, p);
      assert c * p == d * p + (c - d) * p;
    }
  }

  lemma {:induction false} LexIsNumeric(a: string, b: string)
    requires AllDigits(a) && AllDigits(b) && |a| == |b|
    ensures LexLess(a, b) <==> Read(a) < Read(b)
  {
    if a != "" {
      assert a == [a[0]] + a[1..] && b == [b[0]] + b[1..];
      ReadFromFront(a[0], a[1..]);
      ReadFromFront(b[0], b[1..]);
      ReadFits(a[1..]);
      ReadFits(b[1..]);
      LexIsNumeric(a[1..], b[1..]);
      DigitsDecide(a[0] as int - 48, Read(a[1..]), b[0] as int - 48, Read(b[1..]), Pow10(|a| - 1));
    }
  }

  /** A decimal numeral below 2^32 - 1, without a leading zero: an array index to the runtime. */
  predicate IsIndex(key: string)
  {
    && 0 < |key| <= 10 && (forall i :: 0 <= i < |key| ==> IsDigit(key[i]))
    && (key == "0" || key[0] != '0')
    && (|key| == 10 ==> LexLess(key, "4294967295"))
  }

  lemma NextDigit(front: string, c: char, n: nat)
    requires AllDigits(front) && IsDigit(c) && Read(front) == n
    ensures AllDigits(front + [c]) && Read(front + [c]) == n * 10 + (c as int - 48)
  {
    ReadOfSnoc(front, c);
  }

  lemma LimitStarts() returns (s: string)
    ensures s == "42949" && AllDigits(s) && Read(s) == 42949
  {
    s := "4";
    NextDigit("", '4', 0);
    assert "" + ['4'] == s;
    NextDigit(s, '2', 4);
    s := s + ['2'];
    NextDigit(s, '9', 42);
    s := s + ['9'];
    NextDigit(s, '4', 429);
    s := s + ['4'];
    NextDigit(s, '9', 4294);
    s := s + ['9'];
  }

  lemma LimitReads()
    ensures AllDigits("4294967295") && Read("4294967295") == 4294967295
  {
    var s := LimitStarts();
    NextDigit(s, '6', 42949);
    s := s + ['6'];
    NextDigit(s, '7', 429496);
    s := s + ['7'];
    NextDigit(s, '2', 4294967);
    s := s + ['2'];
    NextDigit(s, '9', 42949672);
    s := s + ['9'];
    NextDigit(s, '5', 429496729);
    s := s + ['5'];
    assert s == "4294967295";
  }

  /** An index is a number below 4294967295 as it is written in decimal. */
  lemma IsIndexIff(key: string)
    ensures IsIndex(key) <==> Proper(key) && Read(key) < 4294967295
  {
    if Proper(key) {
      LimitReads();
      assert Pow10(9) == 1000000000 && Pow10(10) == 10000000000;
      ReadFits(key);
      if |key| < 10 {
        PowersGrow(|key|, 9);
      } else if |key| == 10 {
        LexIsNumeric(key, "4294967295");
      } else {
        ReadFills(key);
        PowersGrow(10, |key| - 1);
      }
    }
  }

  lemma NumbersAreIndices(n: nat)
    ensures IsIndex(Decimal(n)) <==> n < 4294967295
  {
    DecimalIsProper(n);
    IsIndexIff(Decimal(n));
  }

  /** The order in which keys are read back: indices first, then shorter keys, then by their bytes. */
  predicate Before(a: string, b: string)
  {
    if IsIndex(a) != IsIndex(b) then IsIndex(a)
    else if Utf8Length(a) != Utf8Length(b) then Utf8Length(a) < Utf8Length(b)
    else LexLess(a, b)
  }

  lemma {:induction false} LexIsTotal(a: string, b: string)
    ensures LexLess(a, b) || LexLess(b, a) || a == b
  {
    if a != "" && b != "" && a[0] == b[0] {
      LexIsTotal(a[1..], b[1..]);
      assert a == [a[0]] + a[1..] && b == [b[0]] + b[1..];
    }
  }

  function Insert(key: string, value: Json, sorted: Members): (ms: Members)
    decreases sorted
  {
    match sorted
    case NoMembers => Member(key, value, NoMembers)
    case Member(k, v, rest) =>
      if key == k then sorted
      else if Before(key, k) then Member(key, value, sorted)
      else Member(k, v, Insert(key, value, rest))
  }

  /** What comes back from the column; of equal keys the last one stays. */
  function Stored(j: Json): (j': Json)
    decreases j
  {
    match j
    case JArray(items) => JArray(StoredItems(items))
    case JObject(members) => JObject(StoredMembers(members))
    case _ => j
  }

  function StoredItems(items: Items): (items': Items)
    decreases items
  {
    match items
    case NoItems => NoItems
    case Item(value, rest) => Item(Stored(value), StoredItems(rest))
  }

  function StoredMembers(members: Members): (ms: Members)
    decreases members
  {
    match members
    case NoMembers => NoMembers
    case Member(key, value, rest) => Insert(key, Stored(value), StoredMembers(rest))
  }

  /** Keys at every level stand in the order in which they will be read back. */
  predicate InOrder(j: Json)
    decreases j
  {
    match j
    case JArray(items) => ItemsInOrder(items)
    case JObject(members) => MembersInOrder(members)
    case _ => true
  }

  predicate ItemsInOrder(items: Items)
    decreases items
  {
    items.Item? ==> InOrder(items.value) && ItemsInOrder(items.rest)
  }

  predicate MembersInOrder(members: Members)
    decreases members
  {
    members.Member? ==>
      && InOrder(members.value) && MembersInOrder(members.rest)
      && (members.rest.Member? ==> Before(members.key, members.rest.key) && members.key != members.rest.key)
  }

  lemma {:induction false} InsertKeepsOrder(key: string, value: Json, sorted: Members)
    requires InOrder(value) && MembersInOrder(sorted)
    ensures MembersInOrder(Insert(key, value, sorted))
    ensures Insert(key, value, sorted).Member?
    ensures Insert(key, value, sorted).key == key ||
      (sorted.Member? && Insert(key, value, sorted).key == sorted.key)
    decreases sorted
  {
    if sorted.Member? && key != sorted.key && !Before(key, sorted.key) {
      LexIsTotal(key, sorted.key);
      InsertKeepsOrder(key, value, sorted.rest);
    }
  }

  lemma {:induction false} StoredIsInOrder(j: Json)
    ensures InOrder(Stored(j))
    decreases j
  {
    match j
    case JArray(items) => StoredItemsInOrder(items);
    case JObject(members) => StoredMembersInOrder(members);
    case _ =>
  }

  lemma {:induction false} StoredItemsInOrder(items: Items)
    ensures ItemsInOrder(StoredItems(items))
    decreases items
  {
    if items.Item? {
      StoredIsInOrder(items.value);
      StoredItemsInOrder(items.rest);
    }
  }

  lemma {:induction false} StoredMembersInOrder(members: Members)
    ensures MembersInOrder(StoredMembers(members))
    decreases members
  {
    if members.Member? {
      StoredIsInOrder(members.value);
      StoredMembersInOrder(members.rest);
      InsertKeepsOrder(members.key, Stored(members.value), StoredMembers(members.rest));
    }
  }

  lemma {:induction false} InOrderIsKept(j: Json)
    requires InOrder(j)
    ensures Stored(j) == j
    decreases j
  {
    match j
    case JArray(items) => ItemsAreKept(items);
    case JObject(members) => MembersAreKept(members);
    case _ =>
  }

  lemma {:induction false} ItemsAreKept(items: Items)
    requires ItemsInOrder(items)
    ensures StoredItems(items) == items
    decreases items
  {
    if items.Item? {
      InOrderIsKept(items.value);
      ItemsAreKept(items.rest);
    }
  }

  lemma {:induction false} MembersAreKept(members: Members)
    requires MembersInOrder(members)
    ensures StoredMembers(members) == members
    decreases members
  {
    if members.Member? {
      InOrderIsKept(members.value);
      MembersAreKept(members.rest);
    }
  }

  /** A value comes back as it was stored if and only if its keys were in order at every level. */
  lemma StoredUnchangedIffInOrder(j: Json)
    ensures Stored(j) == j <==> InOrder(j)
  {
    StoredIsInOrder(j);
    if InOrder(j) {
      InOrderIsKept(j);
    }
  }

  // ------------------------------------------------------------------ one member

  predicate Has(members: Members, key: string)
  {
    members.Member? && (members.key == key || Has(members.rest, key))
  }

  predicate Only(members: Members, key: string, value: Json)
  {
    members.Member? ==> (members.key == key ==> members.value == value) && Only(members.rest, key, value)
  }

  /** The object has the key, and with this value. */
  predicate Holds(members: Members, key: string, value: Json)
  {
    Has(members, key) && Only(members, key, value)
  }

  function Replaced(members: Members, key: string, value: Json): (ms: Members)
  {
    match members
    case NoMembers => NoMembers
    case Member(k, v, rest) => Member(k, if k == key then value else v, Replaced(rest, key, value))
  }

  function Appended(members: Members, key: string, value: Json): (ms: Members)
  {
    match members
    case NoMembers => Member(key, value, NoMembers)
    case Member(k, v, rest) => Member(k, v, Appended(rest, key, value))
  }

  /** Assignment to a key: in its place when the object has it, else at the end. */
  function Assigned(members: Members, key: string, value: Json): (ms: Members)
  {
    if Has(members, key) then Replaced(members, key, value) else Appended(members, key, value)
  }

  lemma {:induction false} ReplacedHolds(members: Members, key: string, value: Json)
    ensures Has(Replaced(members, key, value), key) <==> Has(members, key)
    ensures Only(Replaced(members, key, value), key, value)
    ensures Only(members, key, value) ==> Replaced(members, key, value) == members
  {
    if members.Member? {
      ReplacedHolds(members.rest, key, value);
    }
  }

  lemma {:induction false} AppendedHolds(members: Members, key: string, value: Json)
    requires !Has(members, key)
    ensures Holds(Appended(members, key, value), key, value)
  {
    if members.Member? {
      AppendedHolds(members.rest, key, value);
    }
  }

  lemma AssignedHolds(members: Members, key: string, value: Json)
    ensures Holds(Assigned(members, key, value), key, value)
    ensures Holds(members, key, value) ==> Assigned(members, key, value) == members
  {
    if Has(members, key) {
      ReplacedHolds(members, key, value);
    } else {
      AppendedHolds(members, key, value);
    }
  }

  lemma {:induction false} InsertedMember(k: string, v: Json, sorted: Members, key: string, value: Json)
    requires Only(sorted, key, value) && (k == key ==> v == value)
    ensures Only(Insert(k, v, sorted), key, value)
    ensures Has(Insert(k, v, sorted), key) <==> k == key || Has(sorted, key)
    decreases sorted
  {
    if sorted.Member? {
      InsertedMember(k, v, sorted.rest, key, value);
    }
  }

  lemma {:induction false} StoredHolds(members: Members, key: string, value: Json)
    requires Only(members, key, value)
    ensures Only(StoredMembers(members), key, Stored(value))
    ensures Has(StoredMembers(members), key) <==> Has(members, key)
  {
    if members.Member? {
      StoredHolds(members.rest, key, value);
      InsertedMember(members.key, Stored(members.value), StoredMembers(members.rest), key, Stored(value));
    }
  }

  /**
    Assigning a key before storing gives back the object as it was if and only if it was in
    order and held the key with that value.
   */
  lemma StoredWithUnchangedIff(members: Members, key: string, value: string)
    ensures StoredMembers(Assigned(members, key, JString(value))) == members <==>
      MembersInOrder(members) && Holds(members, key, JString(value))
  {
    var ms := Assigned(members, key, JString(value));
    AssignedHolds(members, key, JString(value));
    StoredMembersInOrder(ms);
    StoredHolds(ms, key, JString(value));
    if MembersInOrder(members) {
      MembersAreKept(members);
    }
  }
}
