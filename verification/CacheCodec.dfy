/**
  What the cache writes and reads back: a one-line JSON header and a payload.  JSON texts are the trees
  they parse to, Arrow streams the frames they hold, and what no encoder wrote is classed by how far
  parsing gets with it.
 */
module CacheCodec {
  import opened Options

  /** A Python float; only a finite one has a numerical value. */
  datatype Float = Finite(value: real) | PlusInfinity | MinusInfinity | NotANumber

  datatype DictKey = TextKey(text: string) | IntKey(n: int) | BoolKey(b: bool) | NoneKey | OtherKey(id: nat)

  datatype Pair = Pair(key: DictKey, value: Value)

  /** Values a loader may return; a frame is writable when Arrow can hold its columns. */
  datatype Value =
    | Nothing
    | Truth(b: bool)
    | Whole(n: int)
    | Number(f: Float)
    | Text(text: string)
    | List(items: seq<Value>)
    | Tuple(items: seq<Value>)
    | Dict(pairs: seq<Pair>)
    | Frame(id: nat, writable: bool)
    | Other(id: nat)

  datatype Member = Member(name: string, value: Json)

  datatype Json =
    | JNull
    | JBool(b: bool)
    | JInt(n: int)
    | JFloat(f: Float)
    | JText(text: string)
    | JArray(items: seq<Json>)
    | JObject(members: seq<Member>)

  /** Bytes read as JSON: not UTF-8 or not JSON, or nested deeper than the interpreter recurses. */
  datatype Parsed = Tree(json: Json) | Unparsable | TooDeep

  /** Bytes read as an Arrow stream; a body cut short is an I/O error, anything else wrong with it is not. */
  datatype Stream = Holding(id: nat) | CutShort | NotArrow

  /** The bytes after the separator, by what they are to either reader. */
  datatype Payload = Payload(text: Parsed, stream: Stream)

  datatype Stored = Headed(header: Parsed, payload: Payload) | NoSeparator

  /** Format errors, which are value errors, are caught by the cache; any other exception leaves it. */
  datatype Decoded = Known(value: Value) | FormatError | OtherError(error: string)

  const FORMAT_VERSION := 1

  // ---------------------------------------------------------------- writing

  function Digits(n: nat): string {
    if n < 10 then ["0123456789"[n]] else Digits(n / 10) + ["0123456789"[n % 10]]
  }

  /** The name JSON gives a key, if it accepts it. */
  function NameOf(key: DictKey): Option<string> {
    match key
    case TextKey(text) => Some(text)
    case IntKey(n) => Some(if n < 0 then "-" + Digits(-n) else Digits(n))
    case BoolKey(b) => Some(if b then "true" else "false")
    case NoneKey => Some("null")
    case OtherKey(_) => None
  }

  function ToJson(value: Value): Option<Json> {
    match value
    case Nothing => Some(JNull)
    case Truth(b) => Some(JBool(b))
    case Whole(n) => Some(JInt(n))
    case Number(f) => Some(JFloat(f))
    case Text(text) => Some(JText(text))
    case List(items) => var all := ArrayOf(items); if all.None? then None else Some(JArray(all.value))
    case Tuple(items) => var all := ArrayOf(items); if all.None? then None else Some(JArray(all.value))
    case Dict(pairs) => var all := MembersOf(pairs); if all.None? then None else Some(JObject(all.value))
    case Frame(_, _) => None
    case Other(_) => None
  }

  function ArrayOf(items: seq<Value>): Option<seq<Json>> {
    if items == [] then Some([])
    else
      var init, last := ArrayOf(items[..|items| - 1]), ToJson(items[|items| - 1]);
      if init.None? || last.None? then None else Some(init.value + [last.value])
  }

  function MembersOf(pairs: seq<Pair>): Option<seq<Member>> {
    if pairs == [] then Some([])
    else
      var init, last := MembersOf(pairs[..|pairs| - 1]), MemberOf(pairs[|pairs| - 1]);
      if init.None? || last.None? then None else Some(init.value + [last.value])
  }

  function MemberOf(pair: Pair): Option<Member> {
    var name, json := NameOf(pair.key), ToJson(pair.value);
    if name.None? || json.None? then None else Some(Member(name.value, json.value))
  }

  /** No bytes when the value cannot be written. */
  function Encode(value: Value): Option<Stored> {
    if value.Frame? then
      if value.writable then Some(Headed(Tree(HeaderFor("arrow")), Payload(Unparsable, Holding(value.id)))) else None
    else
      var json := ToJson(value);
      if json.None? then None else Some(Headed(Tree(HeaderFor("json")), Payload(Tree(json.value), NotArrow)))
  }

  function HeaderFor(kind: string): Json {
    JObject([Member("v", JInt(FORMAT_VERSION)), Member("type", JText(kind))])
  }

  // ---------------------------------------------------------------- reading

  function FromJson(json: Json): Value {
    match json
    case JNull => Nothing
    case JBool(b) => Truth(b)
    case JInt(n) => Whole(n)
    case JFloat(f) => Number(f)
    case JText(text) => Text(text)
    case JArray(items) => List(ItemsOf(items))
    case JObject(members) => Dict(PairsOf(members))
  }

  function ItemsOf(items: seq<Json>): seq<Value> {
    if items == [] then [] else ItemsOf(items[..|items| - 1]) + [FromJson(items[|items| - 1])]
  }

  function PairsOf(members: seq<Member>): seq<Pair> {
    if members == [] then []
    else
      var last := members[|members| - 1];
      Assign(PairsOf(members[..|members| - 1]), TextKey(last.name), FromJson(last.value))
  }

  predicate HasPairKey(pairs: seq<Pair>, key: DictKey) {
    pairs != [] && (pairs[|pairs| - 1].key == key || HasPairKey(pairs[..|pairs| - 1], key))
  }

  /** A repeated name keeps its place and takes the later value. */
  function Assign(pairs: seq<Pair>, key: DictKey, value: Value): seq<Pair> {
    if !HasPairKey(pairs, key) then pairs + [Pair(key, value)]
    else if pairs[|pairs| - 1].key == key then pairs[..|pairs| - 1] + [Pair(key, value)]
    else Assign(pairs[..|pairs| - 1], key, value) + [pairs[|pairs| - 1]]
  }

  /** The value of a name; a repeated name counts for its last value. */
  function Field(members: seq<Member>, name: string): Option<Json> {
    if members == [] then None
    else if members[|members| - 1].name == name then Some(members[|members| - 1].value)
    else Field(members[..|members| - 1], name)
  }

  /** What Python's `int` makes of a JSON value. */
  datatype Converted = Integer(n: int) | Unusable | Overflow

  function ToInt(json: Json): Converted {
    match json
    case JInt(n) => Integer(n)
    case JBool(b) => Integer(if b then 1 else 0)
    case JFloat(f) =>
      (match f
       case Finite(value) => Integer(Truncated(value))
       case NotANumber => Unusable
       case _ => Overflow)
    case JText(text) => (var n := IntOfText(text); if n.Some? then Integer(n.value) else Unusable)
    case _ => Unusable
  }

  /** Towards zero. */
  function Truncated(value: real): int {
    if value >= 0.0 then value.Floor else -((-value).Floor)
  }

  predicate IsSpace(c: char) {
    c == ' ' || c == '\t' || c == '\n' || c == '\r'
  }

  function Stripped(text: string): string {
    if text == "" then ""
    else if IsSpace(text[0]) then Stripped(text[1..])
    else if IsSpace(text[|text| - 1]) then Stripped(text[..|text| - 1])
    else text
  }

  function DigitsValue(text: string): Option<nat> {
    if text == "" then Some(0)
    else
      var init, last := DigitsValue(text[..|text| - 1]), text[|text| - 1];
      if init.None? || !('0' <= last <= '9') then None else Some(10 * init.value + (last as int - '0' as int))
  }

  /** An optional sign and decimal digits, with space around them. */
  function IntOfText(text: string): Option<int> {
    var core := Stripped(text);
    var signed := core != "" && (core[0] == '-' || core[0] == '+');
    var digits := if signed then core[1..] else core;
    var n := DigitsValue(digits);
    if digits == "" || n.None? then None
    else
      var value: int := n.value;
      Some(if signed && core[0] == '-' then -value else value)
  }

  /** Step by step as the source does it: separator, header, version, kind, payload. */
  function Decode(stored: Stored): Decoded {
    match stored
    case NoSeparator => FormatError
    case Headed(header, payload) =>
      (match header
       case Unparsable => FormatError
       case TooDeep => OtherError("RecursionError")
       case Tree(json) => if json.JObject? then DecodeAfter(json.members, payload) else FormatError)
  }

  function DecodeAfter(members: seq<Member>, payload: Payload): Decoded {
    var v, kind := Field(members, "v"), Field(members, "type");
    if v.None? || ToInt(v.value).Unusable? then FormatError
    else if ToInt(v.value).Overflow? then OtherError("OverflowError")
    else if kind.None? || ToInt(v.value).n != FORMAT_VERSION then FormatError
    else if kind.value == JText("arrow") then
      match payload.stream
      case Holding(id) => Known(Frame(id, true))
      case CutShort => OtherError("OSError")
      case NotArrow => FormatError
    else if kind.value == JText("json") then
      match payload.text
      case Tree(json) => Known(FromJson(json))
      case Unparsable => FormatError
      case TooDeep => OtherError("RecursionError")
    else FormatError
  }

  // ---------------------------------------------------------------- which bytes escape, and which are read

  /** The header names the version as an infinite number. */
  predicate InfiniteVersion(stored: Stored) {
    stored.Headed? && stored.header.Tree? && stored.header.json.JObject?
    && Field(stored.header.json.members, "v") in {Some(JFloat(PlusInfinity)), Some(JFloat(MinusInfinity))}
  }

  /** The header announces this format and a payload of the kind. */
  predicate Announces(stored: Stored, kind: string) {
    stored.Headed? && stored.header.Tree? && stored.header.json.JObject?
    && (var members := stored.header.json.members;
        Field(members, "type") == Some(JText(kind))
        && Field(members, "v").Some? && ToInt(Field(members, "v").value) == Integer(FORMAT_VERSION))
  }

  /** Bytes whose reading raises something the cache does not catch. */
  predicate Escapes(stored: Stored) {
    || InfiniteVersion(stored)
    || (stored.Headed? && stored.header.TooDeep?)
    || (Announces(stored, "arrow") && stored.payload.stream.CutShort?)
    || (Announces(stored, "json") && stored.payload.text.TooDeep?)
  }

  /** Bytes that hold a value. */
  predicate Holds(stored: Stored, value: Value) {
    || (Announces(stored, "arrow") && stored.payload.stream.Holding? && value == Frame(stored.payload.stream.id, true))
    || (Announces(stored, "json") && stored.payload.text.Tree? && value == FromJson(stored.payload.text.json))
  }

  /** Decoding lets an error out exactly for these bytes, and gives a value exactly when the bytes hold it. */
  lemma DecodesExactly(stored: Stored, value: Value)
    ensures Decode(stored).OtherError? <==> Escapes(stored)
    ensures Decode(stored) == Known(value) <==> Holds(stored, value)
  {
  }

  // ---------------------------------------------------------------- what survives the round trip

  /** Lists, not tuples, and dictionaries whose keys are distinct texts, all the way down. */
  predicate Plain(value: Value) {
    match value
    case List(items) => AllPlain(items)
    case Dict(pairs) => PlainPairs(pairs)
    case Tuple(_) => false
    case Frame(_, _) => false
    case Other(_) => false
    case _ => true
  }

  predicate AllPlain(items: seq<Value>) {
    items == [] || (AllPlain(items[..|items| - 1]) && Plain(items[|items| - 1]))
  }

  predicate PlainPairs(pairs: seq<Pair>) {
    pairs == []
    || var init, last := pairs[..|pairs| - 1], pairs[|pairs| - 1];
      PlainPairs(init) && !HasPairKey(init, last.key) && PlainPair(last)
  }

  predicate PlainPair(pair: Pair) {
    pair.key.TextKey? && Plain(pair.value)
  }

  lemma HasKeyInLonger(pairs: seq<Pair>, last: Pair, key: DictKey)
    ensures HasPairKey(pairs + [last], key) <==> last.key == key || HasPairKey(pairs, key)
  {
    assert (pairs + [last])[..|pairs|] == pairs;
  }

  lemma PlainLonger(pairs: seq<Pair>, last: Pair)
    ensures PlainPairs(pairs + [last]) <==> PlainPairs(pairs) && !HasPairKey(pairs, last.key) && PlainPair(last)
  {
    assert (pairs + [last])[..|pairs|] == pairs;
  }

  lemma {:induction false} AssignedHasKeys(pairs: seq<Pair>, key: DictKey, value: Value, other: DictKey)
    ensures HasPairKey(Assign(pairs, key, value), other) <==> other == key || HasPairKey(pairs, other)
  {
    if !HasPairKey(pairs, key) {
      HasKeyInLonger(pairs, Pair(key, value), other);
    } else {
      var init, last := pairs[..|pairs| - 1], pairs[|pairs| - 1];
      if last.key == key {
        HasKeyInLonger(init, Pair(key, value), other);
      } else {
        AssignedHasKeys(init, key, value, other);
        HasKeyInLonger(Assign(init, key, value), last, other);
      }
    }
  }

  lemma {:induction false} AssignedIsPlain(pairs: seq<Pair>, key: DictKey, value: Value)
    requires PlainPairs(pairs) && PlainPair(Pair(key, value))
    ensures PlainPairs(Assign(pairs, key, value))
  {
    if !HasPairKey(pairs, key) {
      PlainLonger(pairs, Pair(key, value));
    } else {
      var init, last := pairs[..|pairs| - 1], pairs[|pairs| - 1];
      if last.key == key {
        PlainLonger(init, Pair(key, value));
      } else {
        AssignedIsPlain(init, key, value);
        AssignedHasKeys(init, key, value, last.key);
        PlainLonger(Assign(init, key, value), last);
      }
    }
  }

  /** Whatever comes out of a JSON text is plain. */
  lemma {:induction false} ReadIsPlain(json: Json)
    ensures Plain(FromJson(json))
  {
    match json
    case JArray(items) => ReadItemsArePlain(items);
    case JObject(members) => ReadPairsArePlain(members);
    case _ =>
  }

  lemma {:induction false} ReadItemsArePlain(items: seq<Json>)
    ensures AllPlain(ItemsOf(items))
  {
    if items != [] {
      ReadItemsArePlain(items[..|items| - 1]);
      ReadIsPlain(items[|items| - 1]);
      var rest := ItemsOf(items[..|items| - 1]);
      assert ItemsOf(items)[..|rest|] == rest;
    }
  }

  lemma {:induction false} ReadPairsArePlain(members: seq<Member>)
    ensures PlainPairs(PairsOf(members))
  {
    if members != [] {
      ReadPairsArePlain(members[..|members| - 1]);
      ReadMemberIsPlain(members[|members| - 1]);
      AssignedIsPlain(PairsOf(members[..|members| - 1]), TextKey(members[|members| - 1].name),
                      FromJson(members[|members| - 1].value));
    }
  }

  lemma {:induction false} ReadMemberIsPlain(member: Member)
    ensures Plain(FromJson(member.value))
  {
    ReadIsPlain(member.value);
  }

  /** A plain value is writable and comes back as it was. */
  lemma {:induction false} PlainComesBack(value: Value)
    requires Plain(value)
    ensures ToJson(value).Some? && FromJson(ToJson(value).value) == value
  {
    match value
    case List(items) => PlainItemsComeBack(items);
    case Dict(pairs) => PlainPairsComeBack(pairs);
    case _ =>
  }

  lemma ItemsOfLonger(items: seq<Json>, last: Json)
    ensures ItemsOf(items + [last]) == ItemsOf(items) + [FromJson(last)]
  {
    assert (items + [last])[..|items|] == items;
  }

  lemma {:induction false} PlainItemsComeBack(items: seq<Value>)
    requires AllPlain(items)
    ensures ArrayOf(items).Some? && ItemsOf(ArrayOf(items).value) == items
  {
    if items != [] {
      var init, last := items[..|items| - 1], items[|items| - 1];
      PlainItemsComeBack(init);
      PlainComesBack(last);
      ItemsOfLonger(ArrayOf(init).value, ToJson(last).value);
    }
  }

  lemma TupleIsWritten(items: seq<Value>)
    requires AllPlain(items)
    ensures ToJson(Tuple(items)).Some?
  {
    PlainItemsComeBack(items);
    assert ArrayOf(items).Some?;
  }

  lemma PairsOfLonger(members: seq<Member>, last: Member)
    ensures PairsOf(members + [last]) == Assign(PairsOf(members), TextKey(last.name), FromJson(last.value))
  {
    assert (members + [last])[..|members|] == members;
  }

  lemma AssignNew(pairs: seq<Pair>, pair: Pair)
    requires !HasPairKey(pairs, pair.key)
    ensures Assign(pairs, pair.key, pair.value) == pairs + [pair]
  {
  }

  lemma MembersOfSplit(pairs: seq<Pair>)
    requires pairs != [] && MembersOf(pairs[..|pairs| - 1]).Some? && MemberOf(pairs[|pairs| - 1]).Some?
    ensures MembersOf(pairs) == Some(MembersOf(pairs[..|pairs| - 1]).value + [MemberOf(pairs[|pairs| - 1]).value])
  {
  }

  lemma PairsSplit(pairs: seq<Pair>)
    requires pairs != []
    ensures pairs == pairs[..|pairs| - 1] + [pairs[|pairs| - 1]]
  {
  }

  lemma PairsGrow(pairs: seq<Pair>, last: Pair, members: seq<Member>, member: Member)
    requires PairsOf(members) == pairs && !HasPairKey(pairs, last.key)
    requires Pair(TextKey(member.name), FromJson(member.value)) == last
    ensures PairsOf(members + [member]) == pairs + [last]
  {
    PairsOfLonger(members, member);
    AssignNew(pairs, last);
  }

  lemma {:induction false} PlainPairsComeBack(pairs: seq<Pair>)
    requires PlainPairs(pairs)
    ensures MembersOf(pairs).Some? && PairsOf(MembersOf(pairs).value) == pairs
  {
    if pairs != [] {
      var init, last := pairs[..|pairs| - 1], pairs[|pairs| - 1];
      PlainPairsComeBack(init);
      PlainPairComesBack(last);
      var members, member := MembersOf(init).value, MemberOf(last).value;
      PairsGrow(init, last, members, member);
      MembersOfSplit(pairs);
      PairsSplit(pairs);
    }
  }

  lemma {:induction false} PlainPairComesBack(pair: Pair)
    requires PlainPair(pair)
    ensures MemberOf(pair).Some?
    ensures Pair(TextKey(MemberOf(pair).value.name), FromJson(MemberOf(pair).value.value)) == pair
  {
    PlainComesBack(pair.value);
  }

  lemma HeaderAnnounces(kind: string, payload: Payload, other: string)
    ensures Announces(Headed(Tree(HeaderFor(kind)), payload), other) <==> kind == other
  {
    var v, k := Member("v", JInt(FORMAT_VERSION)), Member("type", JText(kind));
    assert Field([v, k], "type") == Some(JText(kind));
    assert [v, k][..1] == [v];
    assert Field([v], "v") == Some(JInt(FORMAT_VERSION));
  }

  /**
    Decoding undoes encoding exactly for frames and plain values: a tuple comes back as a list, and a
    key that is not a text comes back as one.
   */
  lemma RoundTripsExactlyWhenPlain(value: Value)
    requires Encode(value).Some?
    ensures Decode(Encode(value).value) == Known(value) <==> value.Frame? || Plain(value)
  {
    var stored := Encode(value).value;
    HeaderAnnounces("json", stored.payload, "json");
    HeaderAnnounces("json", stored.payload, "arrow");
    HeaderAnnounces("arrow", stored.payload, "arrow");
    DecodesExactly(stored, value);
    if !value.Frame? {
      ReadIsPlain(ToJson(value).value);
      if Plain(value) {
        PlainComesBack(value);
      }
    }
  }

  /** What is read back is stable: writing it again gives the same value. */
  lemma ReadBackIsStable(value: Value, back: Value)
    requires Encode(value).Some? && Decode(Encode(value).value) == Known(back)
    ensures Encode(back).Some? && Decode(Encode(back).value) == Known(back)
  {
    var stored := Encode(value).value;
    DecodesExactly(stored, back);
    HeaderAnnounces("json", stored.payload, "arrow");
    if !value.Frame? {
      ReadIsPlain(ToJson(value).value);
      PlainComesBack(back);
    }
    RoundTripsExactlyWhenPlain(back);
  }

  /** An encoder's bytes never escape. */
  lemma WrittenIsReadable(value: Value)
    requires Encode(value).Some?
    ensures Decode(Encode(value).value).Known? && !Escapes(Encode(value).value)
  {
    var stored := Encode(value).value;
    HeaderAnnounces("json", stored.payload, "json");
    HeaderAnnounces("arrow", stored.payload, "arrow");
    DecodesExactly(stored, if value.Frame? then value else FromJson(ToJson(value).value));
  }
}
