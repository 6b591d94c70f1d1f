/**
 The canonical text of `src/mongo-store.ts`: protocol data without its session secrets, printed with sorted keys, is the
 pre-image of the hash by which rounds are deduplicated.
 */
module CanonicalJson {
  import opened Base
  import opened Sorting

  /**
   A JSON value; a number is its shortest decimal text. `Undefined` is what an absent field of the hashed document prints
   as; it is not a JSON value of its own.
   */
  datatype Json =
    | Null
    | Bool(value: bool)
    | Num(digits: string)
    | Str(text: string)
    | Arr(items: seq<Json>)
    | Obj(members: seq<Member>)
    | Undefined

  datatype Member = Member(key: string, value: Json)

  /** What the language's locale data decides: case folding and the order in which keys are sorted. */
  datatype Locale = Locale(lower: string -> string, before: (string, string) -> bool)

  const SENSITIVE_KEYS := {"authorization", "cookie", "huid", "queue", "request_id", "session_id", "token"}

  predicate IsNumberChar(c: char) {
    '0' <= c <= '9' || c in "+-.e"
  }

  predicate IsNumber(s: string) {
    s != "" && ('0' <= s[0] <= '9' || s[0] == '-') && forall c | c in s :: IsNumberChar(c)
  }

  ghost predicate DistinctKeys(members: seq<Member>) {
    forall i, j | 0 <= i < j < |members| :: members[i].key != members[j].key
  }

  /** A JSON value as the language holds it; only members of objects may be undefined. */
  ghost predicate Proper(v: Json) {
    match v
    case Num(digits) => IsNumber(digits)
    case Arr(items) => forall i | 0 <= i < |items| :: Proper(items[i])
    case Obj(members) =>
      DistinctKeys(members) && forall i | 0 <= i < |members| :: members[i].value == Undefined || Proper(members[i].value)
    case Undefined => false
    case _ => true
  }

  ghost function Keys(members: seq<Member>): set<string> {
    set i | 0 <= i < |members| :: members[i].key
  }

  /** Equality of values whose objects are unordered (section 4 of RFC 8259). */
  ghost predicate Same(a: Json, b: Json)
    decreases a
  {
    if a.Arr? && b.Arr? then |a.items| == |b.items| && forall i | 0 <= i < |a.items| :: Same(a.items[i], b.items[i])
    else if a.Obj? && b.Obj? then
      && Keys(a.members) == Keys(b.members)
      && forall i, j | 0 <= i < |a.members| && 0 <= j < |b.members| && a.members[i].key == b.members[j].key ::
           Same(a.members[i].value, b.members[j].value)
    else a == b
  }

  // ----- strings -----

  function Hex(n: nat): char
    requires n < 16
  {
    "0123456789abcdef"[n]
  }

  /** `JSON.stringify` on one character. */
  function EscapeChar(c: char): string {
    if c == '\"' then "\\\""
    else if c == '\\' then "\\\\"
    else if c == '\n' then "\\n"
    else if c == '\r' then "\\r"
    else if c == '\t' then "\\t"
    else if c as int == 8 then "\\b"
    else if c as int == 12 then "\\f"
    else if c as int < 32 then "\\u00" + [Hex(c as int / 16), Hex(c as int % 16)]
    else [c]
  }

  function Escape(s: string): string {
    if s == "" then "" else EscapeChar(s[0]) + Escape(s[1..])
  }

  function Quote(s: string): string {
    "\"" + Escape(s) + "\""
  }

  // ----- the printer -----

  function KeyOrder(locale: Locale): (Member, Member) -> bool {
    (x: Member, y: Member) => !locale.before(y.key, x.key)
  }

  /** `stable`: object members are printed in the order of their keys. */
  function Stable(v: Json, locale: Locale): string
    decreases v, 1, 0
  {
    match v
    case Null => "null"
    case Bool(b) => if b then "true" else "false"
    case Num(digits) => digits
    case Str(text) => Quote(text)
    case Arr(items) => "[" + StableItems(v, 0, locale) + "]"
    case Obj(members) =>
      SortKeeps(members, KeyOrder(locale));
      "{" + StableMembers(v, Sort(members, KeyOrder(locale)), locale) + "}"
    case Undefined => "undefined"
  }

  /** Items joined by commas; joining prints an undefined item as nothing at all. */
  function StableItems(v: Json, i: nat, locale: Locale): string
    requires v.Arr? && i <= |v.items|
    decreases v, 0, |v.items| - i
  {
    if i == |v.items| then ""
    else
      var item := if v.items[i] == Undefined then "" else Stable(v.items[i], locale);
      if i == |v.items| - 1 then item else item + "," + StableItems(v, i + 1, locale)
  }

  function StableMembers(v: Json, members: seq<Member>, locale: Locale): string
    requires v.Obj? && forall m | m in members :: m in v.members
    decreases v, 0, |members|
  {
    if members == [] then ""
    else
      assert v.members[..|v.members|] == v.members && members[0] in v.members;
      assert v.members[IndexOf(v.members, members[0])] == members[0];
      var member := Quote(members[0].key) + ":" + Stable(members[0].value, locale);
      if |members| == 1 then member else member + "," + StableMembers(v, members[1..], locale)
  }

  lemma SortKeeps(members: seq<Member>, leq: (Member, Member) -> bool)
    ensures forall m | m in Sort(members, leq) :: m in members
  {
    forall m | m in Sort(members, leq) ensures m in members { Sorting.SortMembers(members, leq, m); }
  }

  // ----- the printer in two steps -----

  /** The value with the members of every object in the order of their keys. */
  function Canon(v: Json, locale: Locale): Json
    decreases v
  {
    match v
    case Arr(items) => Arr(seq(|items|, i requires 0 <= i < |items| => Canon(items[i], locale)))
    case Obj(members) => Obj(Sort(CanonMembers(v, locale), KeyOrder(locale)))
    case _ => v
  }

  function CanonMembers(v: Json, locale: Locale): seq<Member>
    requires v.Obj?
    decreases v, 0
  {
    seq(|v.members|, i requires 0 <= i < |v.members| => Member(v.members[i].key, Canon(v.members[i].value, locale)))
  }

  /** Printing members in the order they have. */
  function Print(v: Json): string
    decreases v, 1
  {
    match v
    case Null => "null"
    case Bool(b) => if b then "true" else "false"
    case Num(digits) => digits
    case Str(text) => Quote(text)
    case Arr(items) => "[" + PrintItems(v, 0) + "]"
    case Obj(members) => "{" + PrintMembers(v, 0) + "}"
    case Undefined => "undefined"
  }

  function PrintItem(v: Json): string
    decreases v, 2
  {
    if v == Undefined then "" else Print(v)
  }

  function PrintItems(v: Json, i: nat): string
    requires v.Arr? && i <= |v.items|
    decreases v, 0, |v.items| - i
  {
    if i == |v.items| then ""
    else PrintItem(v.items[i]) + if i == |v.items| - 1 then "" else "," + PrintItems(v, i + 1)
  }

  function PrintMembers(v: Json, i: nat): string
    requires v.Obj? && i <= |v.members|
    decreases v, 0, |v.members| - i
  {
    if i == |v.members| then ""
    else
      Quote(v.members[i].key) + ":" + Print(v.members[i].value)
      + if i == |v.members| - 1 then "" else "," + PrintMembers(v, i + 1)
  }

  function CanonAll(members: seq<Member>, locale: Locale): seq<Member> {
    seq(|members|, i requires 0 <= i < |members| => Member(members[i].key, Canon(members[i].value, locale)))
  }

  lemma {:induction false} InsertCanon(x: Member, s: seq<Member>, locale: Locale)
    ensures var y := Member(x.key, Canon(x.value, locale));
            CanonAll(Insert(x, s, KeyOrder(locale)), locale) == Insert(y, CanonAll(s, locale), KeyOrder(locale))
    decreases s
  {
    if s != [] && !KeyOrder(locale)(x, s[0]) {
      InsertCanon(x, s[1..], locale);
      assert CanonAll(s, locale)[1..] == CanonAll(s[1..], locale);
    }
  }

  lemma {:induction false} SortCanon(s: seq<Member>, locale: Locale)
    ensures CanonAll(Sort(s, KeyOrder(locale)), locale) == Sort(CanonAll(s, locale), KeyOrder(locale))
    decreases s
  {
    if s != [] {
      SortCanon(s[1..], locale);
      InsertCanon(s[0], Sort(s[1..], KeyOrder(locale)), locale);
      assert CanonAll(s, locale)[1..] == CanonAll(s[1..], locale);
    }
  }

  lemma {:induction false} StableIsPrint(v: Json, locale: Locale)
    ensures Stable(v, locale) == Print(Canon(v, locale))
    decreases v, 1
  {
    match v {
      case Arr(items) => ItemsArePrinted(v, 0, locale);
      case Obj(members) =>
        SortKeeps(members, KeyOrder(locale));
        SortCanon(members, locale);
        SortBag(members, KeyOrder(locale));
        assert |multiset(Sort(members, KeyOrder(locale)))| == |multiset(members)|;
        assert CanonMembers(v, locale) == CanonAll(members, locale);
        MembersArePrinted(v, 0, locale);
        assert Sort(members, KeyOrder(locale))[0..] == Sort(members, KeyOrder(locale));
      case _ =>
    }
  }

  lemma {:induction false} ItemsArePrinted(v: Json, i: nat, locale: Locale)
    requires v.Arr? && i <= |v.items|
    ensures StableItems(v, i, locale) == PrintItems(Canon(v, locale), i)
    decreases v, 0, |v.items| - i
  {
    hide Stable, Print, Canon;
    CanonItems(v, locale);
    if i < |v.items| {
      StableIsPrint(v.items[i], locale);
      ItemsArePrinted(v, i + 1, locale);
    }
  }

  lemma CanonItems(v: Json, locale: Locale)
    requires v.Arr?
    ensures Canon(v, locale).Arr? && |Canon(v, locale).items| == |v.items|
    ensures forall i | 0 <= i < |v.items| ::
      && Canon(v, locale).items[i] == Canon(v.items[i], locale)
      && (Canon(v.items[i], locale) == Undefined <==> v.items[i] == Undefined)
  {
  }

  lemma {:induction false} MembersArePrinted(v: Json, i: nat, locale: Locale)
    requires v.Obj? && i <= |v.members|
    requires |Sort(v.members, KeyOrder(locale))| == |v.members|
    requires Canon(v, locale) == Obj(CanonAll(Sort(v.members, KeyOrder(locale)), locale))
    requires forall m | m in Sort(v.members, KeyOrder(locale)) :: m in v.members
    ensures StableMembers(v, Sort(v.members, KeyOrder(locale))[i..], locale) == PrintMembers(Canon(v, locale), i)
    decreases v, 0, |v.members| - i
  {
    hide Stable, Print, Canon, Sort, Quote, KeyOrder;
    var sorted := Sort(v.members, KeyOrder(locale));
    if i < |v.members| {
      assert sorted[i..][1..] == sorted[i + 1..] && sorted[i] in v.members;
      assert v.members[..|v.members|] == v.members;
      assert v.members[IndexOf(v.members, sorted[i])] == sorted[i];
      StableIsPrint(sorted[i].value, locale);
      MembersArePrinted(v, i + 1, locale);
    }
  }

  // ----- the parser -----

  function Unhex(c: char): Option<nat> {
    if '0' <= c <= '9' then Some(c as int - '0' as int)
    else if 'a' <= c <= 'f' then Some(c as int - 'a' as int + 10)
    else None
  }

  /** The control characters that have no escape of two characters. */
  predicate LongEscape(code: nat) {
    code < 8 || code == 11 || 14 <= code < 32
  }

  /** The character an escape stands for, and how many characters the escape takes. */
  function Unescape(t: string): Option<(char, nat)>
    ensures Unescape(t).Some? ==> 1 <= Unescape(t).value.1 <= |t|
  {
    if t == "" then None
    else if t[0] != '\\' then (if t[0] as int < 32 || t[0] == '\"' then None else Some((t[0], 1)))
    else if |t| < 2 then None
    else if t[1] == '\"' || t[1] == '\\' then Some((t[1], 2))
    else if t[1] == 'n' then Some(('\n', 2))
    else if t[1] == 'r' then Some(('\r', 2))
    else if t[1] == 't' then Some(('\t', 2))
    else if t[1] == 'b' then Some((8 as char, 2))
    else if t[1] == 'f' then Some((12 as char, 2))
    else if |t| < 6 || t[1..4] != "u00" then None
    else
      var high, low := Unhex(t[4]), Unhex(t[5]);
      if high.None? || low.None? || !LongEscape(16 * high.value + low.value) then None
      else Some(((16 * high.value + low.value) as char, 6))
  }

  /** The rest of a string literal, after its opening quote. */
  function ParseString(t: string): (r: Option<(string, string)>)
    ensures r.Some? ==> |r.value.1| < |t|
    decreases |t|
  {
    if t == "" then None
    else if t[0] == '\"' then Some(("", t[1..]))
    else
      var first := Unescape(t);
      if first.None? then None
      else
        var rest := ParseString(t[first.value.1..]);
        if rest.None? then None else Some(([first.value.0] + rest.value.0, rest.value.1))
  }

  function NumberLength(t: string): (n: nat)
    ensures n <= |t|
  {
    if t == "" || !IsNumberChar(t[0]) then 0 else 1 + NumberLength(t[1..])
  }

  function ParseValue(t: string): (r: Option<(Json, string)>)
    ensures r.Some? ==> |r.value.1| < |t|
    decreases |t|, 0
  {
    if t == "" then None
    else if t[0] == '\"' then
      var s := ParseString(t[1..]);
      if s.None? then None else Some((Str(s.value.0), s.value.1))
    else if t[0] == '[' then
      if |t| > 1 && t[1] == ']' then Some((Arr([]), t[2..]))
      else
        var items := ParseItems(t[1..]);
        if items.None? then None else Some((Arr(items.value.0), items.value.1))
    else if t[0] == '{' then
      if |t| > 1 && t[1] == '}' then Some((Obj([]), t[2..]))
      else
        var members := ParseMembers(t[1..]);
        if members.None? then None else Some((Obj(members.value.0), members.value.1))
    else if "null" <= t then Some((Null, t[4..]))
    else if "true" <= t then Some((Bool(true), t[4..]))
    else if "false" <= t then Some((Bool(false), t[5..]))
    else if "undefined" <= t then Some((Undefined, t[9..]))
    else
      var n := NumberLength(t);
      if n == 0 then None else Some((Num(t[..n]), t[n..]))
  }

  /** One or more values, up to the bracket that closes the array. */
  function ParseItems(t: string): (r: Option<(seq<Json>, string)>)
    ensures r.Some? ==> |r.value.1| < |t|
    decreases |t|, 1
  {
    var first := ParseValue(t);
    if first.None? || first.value.1 == "" then None
    else if first.value.1[0] == ']' then Some(([first.value.0], first.value.1[1..]))
    else if first.value.1[0] != ',' then None
    else
      var rest := ParseItems(first.value.1[1..]);
      if rest.None? then None else Some(([first.value.0] + rest.value.0, rest.value.1))
  }

  /** One or more members, up to the brace that closes the object. */
  function ParseMembers(t: string): (r: Option<(seq<Member>, string)>)
    ensures r.Some? ==> |r.value.1| < |t|
    decreases |t|, 1
  {
    if t == "" || t[0] != '\"' then None
    else
      var key := ParseString(t[1..]);
      if key.None? || key.value.1 == "" || key.value.1[0] != ':' then None
      else
        var value := ParseValue(key.value.1[1..]);
        if value.None? || value.value.1 == "" then None
        else
          var first := Member(key.value.0, value.value.0);
          if value.value.1[0] == '}' then Some(([first], value.value.1[1..]))
          else if value.value.1[0] != ',' then None
          else
            var rest := ParseMembers(value.value.1[1..]);
            if rest.None? then None else Some(([first] + rest.value.0, rest.value.1))
  }

  // ----- the parser undoes the printer -----

  lemma UnescapeBack(c: char, rest: string)
    ensures Unescape(EscapeChar(c) + rest) == Some((c, |EscapeChar(c)|)) && EscapeChar(c)[0] != '\"'
  {
    var t := EscapeChar(c) + rest;
    if c as int < 32 && c !in "\n\r\t" && c as int != 8 && c as int != 12 {
      var n := c as int;
      UnhexBack(n / 16);
      UnhexBack(n % 16);
      assert t[1..4] == "u00" && t[4] == Hex(n / 16) && t[5] == Hex(n % 16);
    }
  }

  lemma UnhexBack(n: nat)
    requires n < 16
    ensures Unhex(Hex(n)) == Some(n)
  {
  }

  lemma {:induction false} StringBack(s: string, rest: string)
    ensures ParseString(Escape(s) + "\"" + rest) == Some((s, rest))
    decreases s
  {
    var t := Escape(s) + "\"" + rest;
    if s == "" {
      assert t == "\"" + rest;
    } else {
      var more := Escape(s[1..]) + "\"" + rest;
      assert t == EscapeChar(s[0]) + more;
      UnescapeBack(s[0], more);
      assert t[|EscapeChar(s[0])|..] == more && t[0] == EscapeChar(s[0])[0];
      StringBack(s[1..], rest);
      assert [s[0]] + s[1..] == s;
    }
  }

  ghost predicate Delimits(rest: string) {
    rest == "" || !IsNumberChar(rest[0])
  }

  lemma {:induction false} NumberBack(digits: string, rest: string)
    requires (forall c | c in digits :: IsNumberChar(c)) && Delimits(rest)
    ensures NumberLength(digits + rest) == |digits|
    decreases digits
  {
    if digits == "" {
      assert digits + rest == rest;
    } else {
      assert (digits + rest)[1..] == digits[1..] + rest;
      NumberBack(digits[1..], rest);
    }
  }

  lemma QuoteBack(s: string, rest: string)
    ensures Quote(s) + rest != "" && (Quote(s) + rest)[0] == '\"'
    ensures ParseString((Quote(s) + rest)[1..]) == Some((s, rest))
  {
    hide ParseString, Escape;
    StringBack(s, rest);
    var text := Escape(s);
    assert ("\"" + text + "\"" + rest)[1..] == text + "\"" + rest;
  }

  /** Reading back what was printed gives the value and leaves what follows. */
  lemma {:induction false} ValueBack(v: Json, rest: string)
    requires (Proper(v) || v == Undefined) && Delimits(rest)
    ensures ParseValue(Print(v) + rest) == Some((v, rest))
    decreases v, 1
  {
    var t := Print(v) + rest;
    match v {
      case Null => assert t[4..] == rest;
      case Bool(b) => if b { assert t[4..] == rest; } else { assert t[5..] == rest; }
      case Num(digits) =>
        NumberBack(digits, rest);
        assert t[0] == digits[0] && t[..|digits|] == digits && t[|digits|..] == rest;
      case Str(text) => QuoteBack(text, rest);
      case Arr(items) => ArrayBack(v, rest);
      case Obj(members) => ObjectBack(v, rest);
      case Undefined => assert t[9..] == rest;
    }
  }

  lemma {:induction false} ArrayBack(v: Json, rest: string)
    requires v.Arr? && Proper(v) && Delimits(rest)
    ensures ParseValue(Print(v) + rest) == Some((v, rest))
    decreases v, 0, |v.items| + 1
  {
    hide Proper, Quote, ParseMembers, ParseItems, ParseString;
    var t := Print(v) + rest;
    if v.items == [] {
      assert Print(v) == "[]" && t[2..] == rest;
    } else {
      Wrapped("[", PrintItems(v, 0), "]", rest);
      ItemsBack(v, 0, rest);
      assert t[1] == PrintItems(v, 0)[0];
      assert v.items[0..] == v.items;
    }
  }

  lemma {:induction false} ItemsBack(v: Json, i: nat, rest: string)
    requires v.Arr? && Proper(v) && i < |v.items|
    ensures PrintItems(v, i) != "" && PrintItems(v, i)[0] != ']'
    ensures ParseItems(PrintItems(v, i) + "]" + rest) == Some((v.items[i..], rest))
    decreases v, 0, |v.items| - i
  {
    hide Print, ParseValue;
    var item, last := v.items[i], i == |v.items| - 1;
    var more := if last then "" else PrintItems(v, i + 1);
    var end := Tail(more, last) + "]" + rest;
    PrintStarts(item);
    assert PrintItems(v, i) == Print(item) + Tail(more, last);
    Joined(Print(item), Tail(more, last), "]", rest);
    TailBack(more, last, "]", rest);
    ValueBack(item, end);
    if last {
      assert v.items[i..] == [item];
    } else {
      ItemsBack(v, i + 1, rest);
      assert v.items[i..] == [item] + v.items[i + 1..];
    }
  }

  lemma PrintStarts(v: Json)
    requires Proper(v)
    ensures Print(v) != "" && Print(v)[0] != ']'
  {
  }

  lemma {:induction false} ObjectBack(v: Json, rest: string)
    requires v.Obj? && Proper(v) && Delimits(rest)
    ensures ParseValue(Print(v) + rest) == Some((v, rest))
    decreases v, 0, |v.members| + 1
  {
    hide Proper, Quote, ParseMembers, ParseItems, ParseString;
    var t := Print(v) + rest;
    if v.members == [] {
      assert Print(v) == "{}" && t[2..] == rest;
    } else {
      Wrapped("{", PrintMembers(v, 0), "}", rest);
      MembersBack(v, 0, rest);
      assert t[1] == PrintMembers(v, 0)[0];
      assert v.members[0..] == v.members;
    }
  }

  lemma {:induction false} MembersBack(v: Json, i: nat, rest: string)
    requires v.Obj? && Proper(v) && i < |v.members|
    ensures PrintMembers(v, i) != "" && PrintMembers(v, i)[0] == '\"'
    ensures ParseMembers(PrintMembers(v, i) + "}" + rest) == Some((v.members[i..], rest))
    decreases v, 0, |v.members| - i
  {
    hide Print, ParseValue, ParseString, Quote;
    var m, last := v.members[i], i == |v.members| - 1;
    var more := if last then "" else PrintMembers(v, i + 1);
    var end := Tail(more, last) + "}" + rest;
    assert PrintMembers(v, i) == PrintMember(m) + Tail(more, last);
    Joined(PrintMember(m), Tail(more, last), "}", rest);
    TailBack(more, last, "}", rest);
    ValueBack(m.value, end);
    MemberBack(m, end);
    if last {
      assert v.members[i..] == [m];
    } else {
      MembersBack(v, i + 1, rest);
      assert v.members[i..] == [m] + v.members[i + 1..];
    }
  }

  lemma Wrapped(open: string, body: string, close: string, rest: string)
    requires |open| == 1
    ensures (open + body + close + rest)[1..] == body + close + rest
  {
  }

  lemma Joined(a: string, b: string, c: string, rest: string)
    ensures a + b + c + rest == a + (b + c + rest)
  {
  }

  /** What follows an item: nothing more, or a comma and the other items. */
  function Tail(more: string, last: bool): string {
    if last then "" else "," + more
  }

  lemma TailBack(more: string, last: bool, close: string, rest: string)
    requires |close| == 1 && !IsNumberChar(close[0])
    ensures var end := Tail(more, last) + close + rest;
      && end != "" && Delimits(end)
      && (if last then end[0] == close[0] && end[1..] == rest else end[0] == ',' && end[1..] == more + close + rest)
  {
    if last {
      assert Tail(more, last) + close + rest == close + rest;
    } else {
      Wrapped(",", more, close, rest);
    }
  }

  function PrintMember(m: Member): string {
    Quote(m.key) + ":" + Print(m.value)
  }

  /** The pieces the member parser sees. */
  lemma MemberBack(m: Member, end: string)
    ensures var t := PrintMember(m) + end;
      && t != "" && PrintMember(m) != "" && t[0] == '\"' == PrintMember(m)[0]
      && ParseString(t[1..]) == Some((m.key, ":" + (Print(m.value) + end)))
      && (":" + (Print(m.value) + end))[1..] == Print(m.value) + end
  {
    QuoteBack(m.key, ":" + (Print(m.value) + end));
    assert PrintMember(m) + end == Quote(m.key) + (":" + (Print(m.value) + end));
  }

  // ----- canonical values -----

  lemma KeysOrdered(locale: Locale)
    requires StrictTotal(locale.before)
    ensures TotalPreorder(KeyOrder(locale))
  {
    ByKey(KeyOrder(locale), (m: Member) => m.key, locale.before);
  }

  lemma {:induction false} CanonProper(v: Json, locale: Locale)
    requires Proper(v)
    ensures Proper(Canon(v, locale))
    decreases v
  {
    match v {
      case Arr(items) =>
        forall i | 0 <= i < |items| ensures Proper(Canon(items[i], locale)) { CanonProper(items[i], locale); }
      case Obj(members) =>
        forall i | 0 <= i < |members| && members[i].value != Undefined ensures Proper(Canon(members[i].value, locale)) {
          CanonProper(members[i].value, locale);
        }
        MembersProper(v, locale);
        SortedProper(CanonMembers(v, locale), KeyOrder(locale));
      case _ =>
    }
  }

  lemma MembersProper(v: Json, locale: Locale)
    requires v.Obj? && Proper(v)
    requires forall i | 0 <= i < |v.members| && v.members[i].value != Undefined :: Proper(Canon(v.members[i].value, locale))
    ensures Proper(Obj(CanonMembers(v, locale)))
  {
    var ms := CanonMembers(v, locale);
    forall i | 0 <= i < |ms| ensures ms[i].key == v.members[i].key && (ms[i].value == Undefined || Proper(ms[i].value)) {
      assert ms[i] == Member(v.members[i].key, Canon(v.members[i].value, locale));
    }
  }

  lemma SortedProper(members: seq<Member>, leq: (Member, Member) -> bool)
    requires Proper(Obj(members))
    ensures Proper(Obj(Sort(members, leq)))
  {
    hide Sort;
    var sorted := Sort(members, leq);
    SortKeeps(members, leq);
    SortKeepsDistinct(members, leq, (m: Member) => m.key);
    assert forall m | m in members :: m.value == Undefined || Proper(m.value);
    assert forall i | 0 <= i < |sorted| :: sorted[i] in members;
  }

  /** Unordered equality is equality of canonical values. */
  lemma {:induction false} CanonExact(a: Json, b: Json, locale: Locale)
    requires Proper(a) && Proper(b) && StrictTotal(locale.before)
    ensures Canon(a, locale) == Canon(b, locale) <==> Same(a, b)
    decreases a
  {
    if a.Arr? && b.Arr? {
      forall i | 0 <= i < |a.items| && i < |b.items|
        ensures Canon(a.items[i], locale) == Canon(b.items[i], locale) <==> Same(a.items[i], b.items[i])
      {
        CanonExact(a.items[i], b.items[i], locale);
      }
      ItemsExact(a, b, locale);
    } else if a.Obj? && b.Obj? {
      forall i, j | 0 <= i < |a.members| && 0 <= j < |b.members|
        ensures Canon(a.members[i].value, locale) == Canon(b.members[j].value, locale)
           <==> Same(a.members[i].value, b.members[j].value)
      {
        if a.members[i].value != Undefined && b.members[j].value != Undefined {
          CanonExact(a.members[i].value, b.members[j].value, locale);
        }
      }
      MembersExact(a, b, locale);
    }
  }

  lemma ItemsExact(a: Json, b: Json, locale: Locale)
    requires a.Arr? && b.Arr?
    requires forall i | 0 <= i < |a.items| && i < |b.items| ::
      Canon(a.items[i], locale) == Canon(b.items[i], locale) <==> Same(a.items[i], b.items[i])
    ensures Canon(a, locale) == Canon(b, locale) <==> Same(a, b)
  {
    var ca, cb := Canon(a, locale).items, Canon(b, locale).items;
    if |ca| == |cb| {
      assert ca == cb <==> forall i | 0 <= i < |ca| :: ca[i] == cb[i];
    }
  }

  /** The same members, in any order. */
  ghost predicate SameMembers(ms: seq<Member>, ns: seq<Member>) {
    && Keys(ms) == Keys(ns)
    && forall i, j | 0 <= i < |ms| && 0 <= j < |ns| && ms[i].key == ns[j].key :: ms[i].value == ns[j].value
  }

  lemma SortedExact(ms: seq<Member>, ns: seq<Member>, locale: Locale)
    requires DistinctKeys(ms) && DistinctKeys(ns) && StrictTotal(locale.before)
    ensures Sort(ms, KeyOrder(locale)) == Sort(ns, KeyOrder(locale)) <==> SameMembers(ms, ns)
  {
    var leq := KeyOrder(locale);
    KeysOrdered(locale);
    if Sort(ms, leq) == Sort(ns, leq) {
      SortBag(ms, leq);
      SortBag(ns, leq);
      forall m ensures m in ms <==> m in ns {
        assert m in multiset(ms) <==> m in multiset(ns);
      }
      SharedMembers(ms, ns);
    }
    if SameMembers(ms, ns) {
      MembersShared(ms, ns);
      Sorting.SameElements(ms, ns);
      SortedAlike(ms, ns, leq);
    }
  }

  lemma SharedMembers(ms: seq<Member>, ns: seq<Member>)
    requires DistinctKeys(ms) && DistinctKeys(ns) && forall m :: m in ms <==> m in ns
    ensures SameMembers(ms, ns)
  {
    forall k ensures k in Keys(ms) <==> k in Keys(ns) {
      if k in Keys(ms) {
        var i :| 0 <= i < |ms| && ms[i].key == k;
        assert ms[i] in ns;
      }
      if k in Keys(ns) {
        var j :| 0 <= j < |ns| && ns[j].key == k;
        assert ns[j] in ms;
      }
    }
    forall i, j | 0 <= i < |ms| && 0 <= j < |ns| && ms[i].key == ns[j].key ensures ms[i].value == ns[j].value {
      assert ms[i] in ns;
    }
  }

  lemma MembersShared(ms: seq<Member>, ns: seq<Member>)
    requires SameMembers(ms, ns)
    ensures forall m :: m in ms <==> m in ns
  {
    forall m | m in ms ensures m in ns { Shares(ms, ns, m); }
    forall m | m in ns ensures m in ms { Shares(ns, ms, m); }
  }

  lemma Shares(ms: seq<Member>, ns: seq<Member>, m: Member)
    requires SameMembers(ms, ns) && m in ms
    ensures m in ns
  {
    assert m.key in Keys(ns);
    var j :| 0 <= j < |ns| && ns[j].key == m.key;
    assert ns[j] == m;
  }

  lemma SameKeys(ms: seq<Member>, ms': seq<Member>)
    requires |ms| == |ms'| && forall i | 0 <= i < |ms| :: ms[i].key == ms'[i].key
    ensures Keys(ms) == Keys(ms')
  {
    forall k ensures k in Keys(ms) <==> k in Keys(ms') {
      if k in Keys(ms) {
        var i :| 0 <= i < |ms| && ms[i].key == k;
        assert ms'[i].key == k;
      }
    }
  }

  lemma MembersExact(a: Json, b: Json, locale: Locale)
    requires a.Obj? && b.Obj? && DistinctKeys(a.members) && DistinctKeys(b.members) && StrictTotal(locale.before)
    requires forall i, j | 0 <= i < |a.members| && 0 <= j < |b.members| ::
      Canon(a.members[i].value, locale) == Canon(b.members[j].value, locale)
      <==> Same(a.members[i].value, b.members[j].value)
    ensures Canon(a, locale) == Canon(b, locale) <==> Same(a, b)
  {
    hide Keys, StrictTotal, KeyOrder, Sort, SameMembers, Same, DistinctKeys;
    var ms, ns := CanonMembers(a, locale), CanonMembers(b, locale);
    DistinctCanon(a, locale);
    DistinctCanon(b, locale);
    SortedExact(ms, ns, locale);
    CanonSame(a, b, locale);
    hide CanonMembers;
    assert Canon(a, locale) == Obj(Sort(ms, KeyOrder(locale))) && Canon(b, locale) == Obj(Sort(ns, KeyOrder(locale)));
  }

  lemma DistinctCanon(a: Json, locale: Locale)
    requires a.Obj? && DistinctKeys(a.members)
    ensures DistinctKeys(CanonMembers(a, locale))
  {
    hide Canon;
  }

  lemma CanonSame(a: Json, b: Json, locale: Locale)
    requires a.Obj? && b.Obj?
    requires forall i, j | 0 <= i < |a.members| && 0 <= j < |b.members| ::
      Canon(a.members[i].value, locale) == Canon(b.members[j].value, locale)
      <==> Same(a.members[i].value, b.members[j].value)
    ensures SameMembers(CanonMembers(a, locale), CanonMembers(b, locale)) <==> Same(a, b)
  {
    hide Keys, Canon;
    SameKeys(CanonMembers(a, locale), a.members);
    SameKeys(CanonMembers(b, locale), b.members);
  }

  /** Two JSON values print the same exactly when they are equal as values with unordered objects. */
  lemma StableExact(a: Json, b: Json, locale: Locale)
    requires Proper(a) && Proper(b) && StrictTotal(locale.before)
    ensures Stable(a, locale) == Stable(b, locale) <==> Same(a, b)
  {
    StableIsPrint(a, locale);
    StableIsPrint(b, locale);
    CanonExact(a, b, locale);
    CanonProper(a, locale);
    CanonProper(b, locale);
    ValueBack(Canon(a, locale), "");
    ValueBack(Canon(b, locale), "");
    assert Print(Canon(a, locale)) + "" == Stable(a, locale) && Print(Canon(b, locale)) + "" == Stable(b, locale);
  }

  /** Outside JSON values the text is ambiguous: an undefined item prints as nothing. */
  lemma UndefinedItemsVanish(locale: Locale)
    ensures Stable(Arr([Undefined]), locale) == Stable(Arr([]), locale) && !Same(Arr([Undefined]), Arr([]))
  {
  }

  /** The members of every object are in the order of their keys. */
  ghost predicate InKeyOrder(v: Json, locale: Locale) {
    match v
    case Arr(items) => forall i | 0 <= i < |items| :: InKeyOrder(items[i], locale)
    case Obj(members) =>
      && (forall i, j | 0 <= i < j < |members| :: !locale.before(members[j].key, members[i].key))
      && forall i | 0 <= i < |members| :: InKeyOrder(members[i].value, locale)
    case _ => true
  }

  lemma {:induction false} CanonOrdered(v: Json, locale: Locale)
    requires StrictTotal(locale.before)
    ensures InKeyOrder(Canon(v, locale), locale)
    decreases v
  {
    hide Sort, Sorted, StrictTotal;
    match v {
      case Arr(items) =>
        forall i | 0 <= i < |items| ensures InKeyOrder(Canon(items[i], locale), locale) { CanonOrdered(items[i], locale); }
      case Obj(members) =>
        var ms := CanonMembers(v, locale);
        var sorted := Sort(ms, KeyOrder(locale));
        KeysOrdered(locale);
        SortSorts(ms, KeyOrder(locale));
        SortKeeps(ms, KeyOrder(locale));
        forall i, j | 0 <= i < j < |sorted| ensures !locale.before(sorted[j].key, sorted[i].key) {
          SortedPairs(sorted, KeyOrder(locale), i, j);
        }
        forall i | 0 <= i < |sorted| ensures InKeyOrder(sorted[i].value, locale) {
          assert sorted[i] in ms;
          var k :| 0 <= k < |ms| && ms[k] == sorted[i];
          CanonOrdered(members[k].value, locale);
        }
      case _ =>
    }
  }

  lemma {:induction false} CanonKeeps(v: Json, locale: Locale)
    requires Proper(v) || v == Undefined
    ensures Same(v, Canon(v, locale))
    decreases v
  {
    hide Sort;
    match v {
      case Arr(items) =>
        forall i | 0 <= i < |items| ensures Same(items[i], Canon(items[i], locale)) { CanonKeeps(items[i], locale); }
      case Obj(members) =>
        var ms, sorted := CanonMembers(v, locale), Sort(CanonMembers(v, locale), KeyOrder(locale));
        forall m ensures m in sorted <==> m in ms { Sorting.SortMembers(ms, KeyOrder(locale), m); }
        SameKeys(ms, members);
        KeysShared(ms, sorted);
        forall i, j | 0 <= i < |members| && 0 <= j < |sorted| && members[i].key == sorted[j].key
          ensures Same(members[i].value, sorted[j].value)
        {
          assert sorted[j] in ms;
          var k :| 0 <= k < |ms| && ms[k] == sorted[j];
          assert k == i;
          CanonKeeps(members[i].value, locale);
        }
      case _ =>
    }
  }

  lemma KeysShared(ms: seq<Member>, ns: seq<Member>)
    requires forall m :: m in ms <==> m in ns
    ensures Keys(ms) == Keys(ns)
  {
    forall k ensures k in Keys(ms) <==> k in Keys(ns) {
      if k in Keys(ms) {
        var i :| 0 <= i < |ms| && ms[i].key == k;
        assert ms[i] in ns;
      }
      if k in Keys(ns) {
        var j :| 0 <= j < |ns| && ns[j].key == k;
        assert ns[j] in ms;
      }
    }
  }

  /** The text reads back as the value itself, with the members of every object in the order of their keys. */
  lemma StableReads(v: Json, locale: Locale)
    requires Proper(v) && StrictTotal(locale.before)
    ensures exists w :: ParseValue(Stable(v, locale)) == Some((w, "")) && Same(v, w) && InKeyOrder(w, locale)
  {
    StableIsPrint(v, locale);
    CanonProper(v, locale);
    CanonKeeps(v, locale);
    CanonOrdered(v, locale);
    ValueBack(Canon(v, locale), "");
    assert Print(Canon(v, locale)) + "" == Stable(v, locale);
  }

  // ----- leaving secrets out -----

  predicate Sensitive(key: string, locale: Locale) {
    locale.lower(key) in SENSITIVE_KEYS
  }

  /** `sanitizeProtocolData`: drop the sensitive members of every object, at every depth. */
  function Sanitize(v: Json, locale: Locale): Json
    decreases v, 1
  {
    match v
    case Arr(items) => Arr(seq(|items|, i requires 0 <= i < |items| => Sanitize(items[i], locale)))
    case Obj(members) => Obj(SanitizeFrom(v, 0, locale))
    case _ => v
  }

  function SanitizeFrom(v: Json, i: nat, locale: Locale): seq<Member>
    requires v.Obj? && i <= |v.members|
    decreases v, 0, |v.members| - i
  {
    if i == |v.members| then []
    else
      var m := v.members[i];
      (if Sensitive(m.key, locale) then [] else [Member(m.key, Sanitize(m.value, locale))]) + SanitizeFrom(v, i + 1, locale)
  }

  /** The members that must not be stored, whatever the case of their names. */
  ghost predicate Secret(key: string, locale: Locale) {
    var name := locale.lower(key);
    || name == "authorization" || name == "cookie" || name == "huid" || name == "queue"
    || name == "request_id" || name == "session_id" || name == "token"
  }

  lemma SecretIff(locale: Locale)
    ensures forall key :: Secret(key, locale) <==> Sensitive(key, locale)
  {
  }

  ghost function OpenKeys(members: seq<Member>, locale: Locale): set<string> {
    set i | 0 <= i < |members| && !Secret(members[i].key, locale) :: members[i].key
  }

  /** Equality of values apart from sensitive members at any depth. */
  ghost predicate SameApart(a: Json, b: Json, locale: Locale)
    decreases a
  {
    if a.Arr? && b.Arr? then
      |a.items| == |b.items| && forall i | 0 <= i < |a.items| :: SameApart(a.items[i], b.items[i], locale)
    else if a.Obj? && b.Obj? then
      && OpenKeys(a.members, locale) == OpenKeys(b.members, locale)
      && forall i, j | 0 <= i < |a.members| && 0 <= j < |b.members| && a.members[i].key == b.members[j].key
                       && !Secret(a.members[i].key, locale) ::
           SameApart(a.members[i].value, b.members[j].value, locale)
    else a == b
  }

  lemma {:induction false} SanitizedMembers(v: Json, i: nat, m: Member, locale: Locale)
    requires v.Obj? && i <= |v.members|
    ensures m in SanitizeFrom(v, i, locale) <==>
      exists k :: i <= k < |v.members| && !Secret(v.members[k].key, locale)
                  && m == Member(v.members[k].key, Sanitize(v.members[k].value, locale))
    decreases |v.members| - i
  {
    hide Sanitize, Sensitive, Secret;
    SecretIff(locale);
    if i < |v.members| {
      SanitizedMembers(v, i + 1, m, locale);
      var x, rest := v.members[i], SanitizeFrom(v, i + 1, locale);
      var first := if Sensitive(x.key, locale) then [] else [Member(x.key, Sanitize(x.value, locale))];
      assert SanitizeFrom(v, i, locale) == first + rest;
      assert m in first + rest <==> m in first || m in rest;
    }
  }

  lemma SanitizedKeys(v: Json, locale: Locale)
    requires v.Obj?
    ensures Keys(SanitizeFrom(v, 0, locale)) == OpenKeys(v.members, locale)
  {
    var ms := SanitizeFrom(v, 0, locale);
    forall key ensures key in Keys(ms) <==> key in OpenKeys(v.members, locale) {
      if key in Keys(ms) {
        var i :| 0 <= i < |ms| && ms[i].key == key;
        SanitizedMembers(v, 0, ms[i], locale);
      }
      if key in OpenKeys(v.members, locale) {
        var k :| 0 <= k < |v.members| && v.members[k].key == key && !Secret(key, locale);
        var m := Member(key, Sanitize(v.members[k].value, locale));
        SanitizedMembers(v, 0, m, locale);
        var i :| 0 <= i < |ms| && ms[i] == m;
      }
    }
  }

  /** `w` is `v` without its secrets: the same items and the same other members, at every depth. */
  ghost predicate Without(v: Json, w: Json, locale: Locale)
    decreases v
  {
    match v
    case Arr(items) => w.Arr? && |w.items| == |items| && forall i | 0 <= i < |items| :: Without(items[i], w.items[i], locale)
    case Obj(members) =>
      && w.Obj? && Keys(w.members) == OpenKeys(members, locale)
      && forall i, j | 0 <= i < |members| && 0 <= j < |w.members| && members[i].key == w.members[j].key ::
           Without(members[i].value, w.members[j].value, locale)
    case _ => w == v
  }

  /** Sanitising takes away every secret member, at every depth, and nothing else. */
  lemma {:induction false} SanitizeIs(v: Json, locale: Locale)
    requires Proper(v) || v == Undefined
    ensures Without(v, Sanitize(v, locale), locale)
    decreases v
  {
    match v {
      case Arr(items) =>
        forall i | 0 <= i < |items| ensures Without(items[i], Sanitize(items[i], locale), locale) {
          SanitizeIs(items[i], locale);
        }
      case Obj(members) =>
        var ms := SanitizeFrom(v, 0, locale);
        SanitizedKeys(v, locale);
        forall i, j | 0 <= i < |members| && 0 <= j < |ms| && members[i].key == ms[j].key
          ensures Without(members[i].value, ms[j].value, locale)
        {
          SanitizedMembers(v, 0, ms[j], locale);
          var k :| 0 <= k < |members| && ms[j] == Member(members[k].key, Sanitize(members[k].value, locale));
          assert k == i;
          SanitizeIs(members[i].value, locale);
        }
      case _ =>
    }
  }

  lemma {:induction false} SanitizedDistinct(v: Json, i: nat, locale: Locale)
    requires v.Obj? && i <= |v.members| && DistinctKeys(v.members)
    ensures DistinctKeys(SanitizeFrom(v, i, locale))
    decreases |v.members| - i
  {
    if i < |v.members| {
      SanitizedDistinct(v, i + 1, locale);
      var m, rest := v.members[i], SanitizeFrom(v, i + 1, locale);
      forall k | 0 <= k < |rest| ensures rest[k].key != m.key {
        SanitizedMembers(v, i + 1, rest[k], locale);
      }
    }
  }

  lemma {:induction false} SanitizeProper(v: Json, locale: Locale)
    requires Proper(v)
    ensures Proper(Sanitize(v, locale))
    decreases v
  {
    match v {
      case Arr(items) =>
        forall i | 0 <= i < |items| ensures Proper(Sanitize(items[i], locale)) { SanitizeProper(items[i], locale); }
      case Obj(members) =>
        var ms := SanitizeFrom(v, 0, locale);
        SanitizedDistinct(v, 0, locale);
        forall i | 0 <= i < |ms| ensures ms[i].value == Undefined || Proper(ms[i].value) {
          SanitizedMembers(v, 0, ms[i], locale);
          var k :| 0 <= k < |members| && ms[i] == Member(members[k].key, Sanitize(members[k].value, locale));
          if members[k].value != Undefined { SanitizeProper(members[k].value, locale); }
        }
      case _ =>
    }
  }

  /** Sanitised values are equal exactly when the originals are, apart from sensitive members. */
  lemma {:induction false} SanitizeExact(a: Json, b: Json, locale: Locale)
    ensures Same(Sanitize(a, locale), Sanitize(b, locale)) <==> SameApart(a, b, locale)
    decreases a
  {
    if a.Arr? && b.Arr? {
      forall i | 0 <= i < |a.items| && i < |b.items|
        ensures Same(Sanitize(a.items[i], locale), Sanitize(b.items[i], locale))
           <==> SameApart(a.items[i], b.items[i], locale)
      {
        SanitizeExact(a.items[i], b.items[i], locale);
      }
      SanitizedItemsExact(a, b, locale);
    } else if a.Obj? && b.Obj? {
      forall i, j | 0 <= i < |a.members| && 0 <= j < |b.members|
        ensures Same(Sanitize(a.members[i].value, locale), Sanitize(b.members[j].value, locale))
           <==> SameApart(a.members[i].value, b.members[j].value, locale)
      {
        SanitizeExact(a.members[i].value, b.members[j].value, locale);
      }
      SanitizedMembersExact(a, b, locale);
    }
  }

  lemma SanitizedItemsExact(a: Json, b: Json, locale: Locale)
    requires a.Arr? && b.Arr?
    requires forall i | 0 <= i < |a.items| && i < |b.items| ::
      Same(Sanitize(a.items[i], locale), Sanitize(b.items[i], locale)) <==> SameApart(a.items[i], b.items[i], locale)
    ensures Same(Sanitize(a, locale), Sanitize(b, locale)) <==> SameApart(a, b, locale)
  {
    var xs, ys := Sanitize(a, locale).items, Sanitize(b, locale).items;
    assert forall i | 0 <= i < |xs| :: xs[i] == Sanitize(a.items[i], locale);
    assert forall i | 0 <= i < |ys| :: ys[i] == Sanitize(b.items[i], locale);
  }

  lemma SanitizedMembersExact(a: Json, b: Json, locale: Locale)
    requires a.Obj? && b.Obj?
    requires forall i, j | 0 <= i < |a.members| && 0 <= j < |b.members| ::
      Same(Sanitize(a.members[i].value, locale), Sanitize(b.members[j].value, locale))
      <==> SameApart(a.members[i].value, b.members[j].value, locale)
    ensures Same(Sanitize(a, locale), Sanitize(b, locale)) <==> SameApart(a, b, locale)
  {
    hide Keys, OpenKeys, Secret;
    var ms, ns := SanitizeFrom(a, 0, locale), SanitizeFrom(b, 0, locale);
    SanitizedKeys(a, locale);
    SanitizedKeys(b, locale);
    if SameApart(a, b, locale) {
      forall x, y | 0 <= x < |ms| && 0 <= y < |ns| && ms[x].key == ns[y].key ensures Same(ms[x].value, ns[y].value) {
        SanitizedMembers(a, 0, ms[x], locale);
        SanitizedMembers(b, 0, ns[y], locale);
      }
    }
    if Same(Sanitize(a, locale), Sanitize(b, locale)) {
      forall i, j | 0 <= i < |a.members| && 0 <= j < |b.members| && a.members[i].key == b.members[j].key
                    && !Secret(a.members[i].key, locale)
        ensures SameApart(a.members[i].value, b.members[j].value, locale)
      {
        var x := SanitizedPlace(a, i, locale);
        var y := SanitizedPlace(b, j, locale);
        assert Same(ms[x].value, ns[y].value);
      }
    }
  }

  /** Where an open member is found after sanitising. */
  lemma SanitizedPlace(v: Json, i: nat, locale: Locale) returns (x: nat)
    requires v.Obj? && i < |v.members| && !Secret(v.members[i].key, locale)
    ensures var ms := SanitizeFrom(v, 0, locale);
      x < |ms| && ms[x] == Member(v.members[i].key, Sanitize(v.members[i].value, locale))
  {
    hide Sanitize, Secret;
    var m := Member(v.members[i].key, Sanitize(v.members[i].value, locale));
    SanitizedMembers(v, 0, m, locale);
    x :| x < |SanitizeFrom(v, 0, locale)| && SanitizeFrom(v, 0, locale)[x] == m;
  }

  /** Sanitising twice is sanitising once. */
  lemma {:induction false} SanitizeIdempotent(v: Json, locale: Locale)
    ensures Sanitize(Sanitize(v, locale), locale) == Sanitize(v, locale)
    decreases v
  {
    match v {
      case Arr(items) =>
        forall i | 0 <= i < |items|
          ensures Sanitize(Sanitize(items[i], locale), locale) == Sanitize(items[i], locale)
        {
          SanitizeIdempotent(items[i], locale);
        }
        assert Sanitize(Sanitize(v, locale), locale).items == Sanitize(v, locale).items;
      case Obj(members) =>
        var ms := SanitizeFrom(v, 0, locale);
        forall i | 0 <= i < |ms| ensures !Secret(ms[i].key, locale) && Sanitize(ms[i].value, locale) == ms[i].value {
          SanitizedMembers(v, 0, ms[i], locale);
          var k :| 0 <= k < |members| && !Secret(members[k].key, locale)
                   && ms[i] == Member(members[k].key, Sanitize(members[k].value, locale));
          SanitizeIdempotent(members[k].value, locale);
        }
        SanitizeKeepsClean(Obj(ms), 0, locale);
        assert ms[0..] == ms;
      case _ =>
    }
  }

  lemma {:induction false} SanitizeKeepsClean(v: Json, i: nat, locale: Locale)
    requires v.Obj? && i <= |v.members|
    requires forall k | 0 <= k < |v.members| ::
      !Secret(v.members[k].key, locale) && Sanitize(v.members[k].value, locale) == v.members[k].value
    ensures SanitizeFrom(v, i, locale) == v.members[i..]
    decreases |v.members| - i
  {
    SecretIff(locale);
    if i < |v.members| { SanitizeKeepsClean(v, i + 1, locale); }
  }

  // ----- the hash of a round -----

  datatype Document = Document(gameId: Option<string>, game: Option<string>, data: Json)

  ghost predicate ProperDocument(d: Document) {
    (d.gameId.Some? ==> IsNumber(d.gameId.value)) && (d.data == Undefined || Proper(d.data))
  }

  function Hashed(d: Document, locale: Locale): Json {
    Obj([Member("gameId", if d.gameId.Some? then Num(d.gameId.value) else Undefined),
         Member("game", if d.game.Some? then Str(d.game.value) else Undefined),
         Member("data", Sanitize(d.data, locale))])
  }

  /** What `sourceRoundHash` feeds to the hash function. */
  function PreImage(d: Document, locale: Locale): string {
    Stable(Hashed(d, locale), locale)
  }

  lemma HashedProper(d: Document, locale: Locale)
    requires ProperDocument(d)
    ensures Proper(Hashed(d, locale))
  {
    if d.data != Undefined { SanitizeProper(d.data, locale); }
    var ms := Hashed(d, locale).members;
    assert ms[0].key == "gameId" && ms[1].key == "game" && ms[2].key == "data";
    assert |ms[0].key| == 6 && ms[1].key[0] != ms[2].key[0];
  }

  /**
   Two rounds have the same pre-image, and so are stored once, exactly when they belong to the same game and their data
   agree apart from key order and sensitive members.
   */
  lemma PreImageExact(d: Document, e: Document, locale: Locale)
    requires ProperDocument(d) && ProperDocument(e) && StrictTotal(locale.before)
    ensures PreImage(d, locale) == PreImage(e, locale)
       <==> d.gameId == e.gameId && d.game == e.game && SameApart(d.data, e.data, locale)
  {
    HashedProper(d, locale);
    HashedProper(e, locale);
    StableExact(Hashed(d, locale), Hashed(e, locale), locale);
    SanitizeExact(d.data, e.data, locale);
    HashedSame(d, e, locale);
  }

  /**
   What is hashed reads back as an object of exactly three members, in the order of their names: the game's number and name
   and its data without secrets.
   */
  lemma PreImageReads(d: Document, locale: Locale)
    requires ProperDocument(d) && StrictTotal(locale.before)
    ensures exists o :: ParseValue(PreImage(d, locale)) == Some((o, "")) && InKeyOrder(o, locale) && HashedAs(d, o, locale)
  {
    hide Stable, StrictTotal, ParseValue, InKeyOrder, Sanitize;
    HashedProper(d, locale);
    StableReads(Hashed(d, locale), locale);
    var o :| ParseValue(PreImage(d, locale)) == Some((o, "")) && Same(Hashed(d, locale), o) && InKeyOrder(o, locale);
    HashedMembers(d, o, locale);
  }

  ghost predicate HashedAs(d: Document, o: Json, locale: Locale) {
    && o.Obj? && Keys(o.members) == {"gameId", "game", "data"}
    && forall m | m in o.members ::
         && (m.key == "gameId" ==> m.value == if d.gameId.Some? then Num(d.gameId.value) else Undefined)
         && (m.key == "game" ==> m.value == if d.game.Some? then Str(d.game.value) else Undefined)
         && (m.key == "data" ==> exists data :: Without(d.data, data, locale) && Same(data, m.value))
  }

  lemma HashedMembers(d: Document, o: Json, locale: Locale)
    requires ProperDocument(d) && Same(Hashed(d, locale), o)
    ensures HashedAs(d, o, locale)
  {
    hide Sanitize, Without;
    SanitizeIs(d.data, locale);
    var ms := Hashed(d, locale).members;
    assert o.Obj?;
    assert ms[0].key == "gameId" && ms[1].key == "game" && ms[2].key == "data";
    assert Keys(ms) == {"gameId", "game", "data"} by {
      forall k ensures k in Keys(ms) <==> k in {"gameId", "game", "data"} {
        assert ms[0].key in Keys(ms) && ms[1].key in Keys(ms) && ms[2].key in Keys(ms);
      }
    }
    forall j | 0 <= j < |o.members|
      ensures forall i | 0 <= i < 3 && ms[i].key == o.members[j].key :: Same(ms[i].value, o.members[j].value)
    {
    }
  }

  lemma HashedSame(d: Document, e: Document, locale: Locale)
    ensures Same(Hashed(d, locale), Hashed(e, locale))
       <==> d.gameId == e.gameId && d.game == e.game && Same(Sanitize(d.data, locale), Sanitize(e.data, locale))
  {
    hide Sanitize;
    var ms, ns := Hashed(d, locale).members, Hashed(e, locale).members;
    SameKeys(ms, ns);
    var a, b, c := "gameId", "game", "data";
    assert |a| == 6 && |b| == 4 && |c| == 4 && b[0] != c[0];
    assert ms[0].key == ns[0].key == a && ms[1].key == ns[1].key == b && ms[2].key == ns[2].key == c;
    assert forall i, j | 0 <= i < 3 && 0 <= j < 3 && ms[i].key == ns[j].key :: i == j;
    assert Same(Hashed(d, locale), Hashed(e, locale)) ==>
      Same(ms[0].value, ns[0].value) && Same(ms[1].value, ns[1].value) && Same(ms[2].value, ns[2].value);
  }

  /** Hashing a round again after its data was stored without secrets gives the same pre-image. */
  lemma RehashingAgrees(d: Document, locale: Locale)
    ensures PreImage(d.(data := Sanitize(d.data, locale)), locale) == PreImage(d, locale)
  {
    SanitizeIdempotent(d.data, locale);
  }
}
