module CanonicalJson {
  /**
   * The canonical JSON printer behind confirmation digests, touch-plan hashes and parity hashes.
   *
   * Text is UTF-16 code units.  A number is represented by the text it prints as, so two numbers
   * are equal when they print alike.  Values that are not JSON (undefined, functions, non-finite
   * numbers) are one case, NotJson.
   */

  import opened Wrappers
  import opened TextOrder

  datatype Json =
    | Null
    | Bool(flag: bool)
    | Number(token: Text)
    | Str(text: Text)
    | Array(items: seq<Json>)
    | Object(members: seq<(Text, Json)>)
    | NotJson

  const QUOTE: CodeUnit := 34
  const COMMA: CodeUnit := 44
  const COLON: CodeUnit := 58
  const OPEN_BRACKET: CodeUnit := 91
  const BACKSLASH: CodeUnit := 92
  const CLOSE_BRACKET: CodeUnit := 93
  const OPEN_BRACE: CodeUnit := 123
  const CLOSE_BRACE: CodeUnit := 125
  const LOWER_U: CodeUnit := 117

  const NULL_TEXT: Text := [110, 117, 108, 108]
  const TRUE_TEXT: Text := [116, 114, 117, 101]
  const FALSE_TEXT: Text := [102, 97, 108, 115, 101]

  predicate HighSurrogate(c: CodeUnit) {
    0xD800 <= c < 0xDC00
  }

  predicate LowSurrogate(c: CodeUnit) {
    0xDC00 <= c < 0xE000
  }

  predicate Surrogate(c: CodeUnit) {
    HighSurrogate(c) || LowSurrogate(c)
  }

  /** Digits, sign, point and exponent: everything a printed number is made of. */
  predicate NumberUnit(c: CodeUnit) {
    48 <= c <= 57 || c == 43 || c == 45 || c == 46 || c == 69 || c == 101
  }

  predicate NumberToken(t: Text) {
    t != [] && forall i :: 0 <= i < |t| ==> NumberUnit(t[i])
  }

  // ---------------------------------------------------------------------------
  // Printing strings
  // ---------------------------------------------------------------------------

  function HexDigit(n: nat): CodeUnit
    requires n < 16
  {
    if n < 10 then 48 + n else 87 + n
  }

  function Hex4(c: CodeUnit): Text {
    [HexDigit(c / 4096), HexDigit(c / 256 % 16), HexDigit(c / 16 % 16), HexDigit(c % 16)]
  }

  /** The letter of a two-character escape, for the code units that have one. */
  function ShortEscape(c: CodeUnit): Option<CodeUnit> {
    if c == 8 then Some(98)
    else if c == 9 then Some(116)
    else if c == 10 then Some(110)
    else if c == 12 then Some(102)
    else if c == 13 then Some(114)
    else if c == QUOTE || c == BACKSLASH then Some(c)
    else None
  }

  function QuoteUnit(c: CodeUnit): Text {
    if ShortEscape(c).Some? then [BACKSLASH, ShortEscape(c).value]
    else if c < 32 || Surrogate(c) then [BACKSLASH, LOWER_U] + Hex4(c)
    else [c]
  }

  /** A surrogate pair is printed as it is; a lone surrogate is escaped. */
  function QuoteBody(s: Text): Text
    decreases |s|
  {
    if s == [] then []
    else if |s| >= 2 && HighSurrogate(s[0]) && LowSurrogate(s[1]) then s[..2] + QuoteBody(s[2..])
    else QuoteUnit(s[0]) + QuoteBody(s[1..])
  }

  function Quote(s: Text): Text {
    [QUOTE] + QuoteBody(s) + [QUOTE]
  }

  // ---------------------------------------------------------------------------
  // The printer
  // ---------------------------------------------------------------------------

  function Join(parts: seq<Text>): Text
    decreases |parts|
  {
    if parts == [] then []
    else if |parts| == 1 then parts[0]
    else parts[0] + [COMMA] + Join(parts[1..])
  }

  function Entries(pairs: seq<(Text, Text)>): seq<Text> {
    seq(|pairs|, i requires 0 <= i < |pairs| => Quote(pairs[i].0) + [COLON] + pairs[i].1)
  }

  /** Canonical text: object members in key order; None as soon as any part is not JSON. */
  function Canonical(v: Json): Option<Text>
    decreases v
  {
    match v
    case Null => Some(NULL_TEXT)
    case Bool(flag) => Some(if flag then TRUE_TEXT else FALSE_TEXT)
    case Number(token) => Some(token)
    case Str(text) => Some(Quote(text))
    case Array(items) =>
      var parts := CanonicalItems(items);
      if parts.None? then None else Some([OPEN_BRACKET] + Join(parts.value) + [CLOSE_BRACKET])
    case Object(members) =>
      var pairs := CanonicalMembers(members);
      if pairs.None? then None else Some([OPEN_BRACE] + Join(Entries(SortByKey(pairs.value))) + [CLOSE_BRACE])
    case NotJson => None
  }

  function CanonicalItems(items: seq<Json>): Option<seq<Text>>
    decreases items
  {
    if items == [] then Some([])
    else
      var first, rest := Canonical(items[0]), CanonicalItems(items[1..]);
      if first.None? || rest.None? then None else Some([first.value] + rest.value)
  }

  function CanonicalMembers(members: seq<(Text, Json)>): Option<seq<(Text, Text)>>
    decreases members
  {
    if members == [] then Some([])
    else
      var first, rest := CanonicalMember(members[0]), CanonicalMembers(members[1..]);
      if first.None? || rest.None? then None else Some([(members[0].0, first.value)] + rest.value)
  }

  function CanonicalMember(member: (Text, Json)): Option<Text>
    decreases member
  {
    Canonical(member.1)
  }

  /** The printer of the action service, which also refuses string values holding any surrogate. */
  function CanonicalAction(v: Json): Option<Text>
    decreases v
  {
    match v
    case Str(text) =>
      if exists i :: 0 <= i < |text| && Surrogate(text[i]) then None else Some(Quote(text))
    case Array(items) =>
      var parts := CanonicalActionItems(items);
      if parts.None? then None else Some([OPEN_BRACKET] + Join(parts.value) + [CLOSE_BRACKET])
    case Object(members) =>
      var pairs := CanonicalActionMembers(members);
      if pairs.None? then None else Some([OPEN_BRACE] + Join(Entries(SortByKey(pairs.value))) + [CLOSE_BRACE])
    case _ => Canonical(v)
  }

  function CanonicalActionItems(items: seq<Json>): Option<seq<Text>>
    decreases items
  {
    if items == [] then Some([])
    else
      var first, rest := CanonicalAction(items[0]), CanonicalActionItems(items[1..]);
      if first.None? || rest.None? then None else Some([first.value] + rest.value)
  }

  function CanonicalActionMembers(members: seq<(Text, Json)>): Option<seq<(Text, Text)>>
    decreases members
  {
    if members == [] then Some([])
    else
      var first, rest := CanonicalActionMember(members[0]), CanonicalActionMembers(members[1..]);
      if first.None? || rest.None? then None else Some([(members[0].0, first.value)] + rest.value)
  }

  function CanonicalActionMember(member: (Text, Json)): Option<Text>
    decreases member
  {
    CanonicalAction(member.1)
  }

  // ---------------------------------------------------------------------------
  // Equality up to key order, and well-formed values
  // ---------------------------------------------------------------------------

  /** JSON values as the runtime has them: printable numbers, and object keys that are all different. */
  ghost predicate Valid(v: Json)
    decreases v
  {
    match v
    case Number(token) => NumberToken(token)
    case Array(items) => forall i :: 0 <= i < |items| ==> Valid(items[i])
    case Object(members) =>
      DistinctKeys(members) && forall i :: 0 <= i < |members| ==> Valid(members[i].1)
    case NotJson => false
    case _ => true
  }

  /** Equal values, where the members of an object may come in any order. */
  ghost predicate Same(a: Json, b: Json)
    decreases a
  {
    match a
    case Array(items) =>
      && b.Array?
      && |b.items| == |items|
      && forall i :: 0 <= i < |items| ==> Same(items[i], b.items[i])
    case Object(members) =>
      && b.Object?
      && |b.members| == |members|
      && forall i :: 0 <= i < |members| ==> HasPartner(members[i], b.members)
    case _ => a == b
  }

  /** Some member has the same key and the same value up to key order. */
  ghost predicate HasPartner(member: (Text, Json), members: seq<(Text, Json)>)
    decreases member
  {
    exists j :: 0 <= j < |members| && members[j].0 == member.0 && Same(member.1, members[j].1)
  }

  // ---------------------------------------------------------------------------
  // A parser that undoes the printer
  // ---------------------------------------------------------------------------

  function HexValue(c: CodeUnit): Option<nat> {
    if 48 <= c <= 57 then Some(c - 48)
    else if 97 <= c <= 102 then Some(c - 87)
    else if 65 <= c <= 70 then Some(c - 55)
    else None
  }

  function ParseHex4(t: Text): Option<CodeUnit>
    requires |t| >= 4
  {
    var a, b, c, d := HexValue(t[0]), HexValue(t[1]), HexValue(t[2]), HexValue(t[3]);
    if a.None? || b.None? || c.None? || d.None? then None
    else Some(((a.value * 16 + b.value) * 16 + c.value) * 16 + d.value)
  }

  function ShortUnescape(c: CodeUnit): Option<CodeUnit> {
    if c == 98 then Some(8)
    else if c == 116 then Some(9)
    else if c == 110 then Some(10)
    else if c == 102 then Some(12)
    else if c == 114 then Some(13)
    else if c == QUOTE || c == BACKSLASH || c == 47 then Some(c)
    else None
  }

  /** Reads a string body up to and including its closing quote. */
  function Unquote(t: Text): (r: Option<(Text, Text)>)
    ensures r.Some? ==> |r.value.1| < |t|
    decreases |t|
  {
    if t == [] then None
    else if t[0] == QUOTE then Some(([], t[1..]))
    else if t[0] != BACKSLASH then Prepend(t[0], Unquote(t[1..]))
    else if |t| >= 2 && ShortUnescape(t[1]).Some? then Prepend(ShortUnescape(t[1]).value, Unquote(t[2..]))
    else if |t| >= 6 && t[1] == LOWER_U && ParseHex4(t[2..6]).Some?
    then Prepend(ParseHex4(t[2..6]).value, Unquote(t[6..]))
    else None
  }

  function Prepend(c: CodeUnit, r: Option<(Text, Text)>): Option<(Text, Text)> {
    if r.None? then None else Some(([c] + r.value.0, r.value.1))
  }

  function NumberLength(t: Text): (n: nat)
    ensures n <= |t|
    decreases |t|
  {
    if t == [] || !NumberUnit(t[0]) then 0 else 1 + NumberLength(t[1..])
  }

  function ParseValue(t: Text): (r: Option<(Json, Text)>)
    ensures r.Some? ==> |r.value.1| < |t|
    decreases |t|, 0
  {
    if t == [] then None
    else if NULL_TEXT <= t then Some((Null, t[4..]))
    else if TRUE_TEXT <= t then Some((Bool(true), t[4..]))
    else if FALSE_TEXT <= t then Some((Bool(false), t[5..]))
    else if t[0] == QUOTE then
      var s := Unquote(t[1..]);
      if s.None? then None else Some((Str(s.value.0), s.value.1))
    else if t[0] == OPEN_BRACKET then
      if |t| >= 2 && t[1] == CLOSE_BRACKET then Some((Array([]), t[2..]))
      else
        var items := ParseItems(t[1..]);
        if items.None? then None else Some((Array(items.value.0), items.value.1))
    else if t[0] == OPEN_BRACE then
      if |t| >= 2 && t[1] == CLOSE_BRACE then Some((Object([]), t[2..]))
      else
        var members := ParseMembers(t[1..]);
        if members.None? then None else Some((Object(members.value.0), members.value.1))
    else if NumberLength(t) > 0 then Some((Number(t[..NumberLength(t)]), t[NumberLength(t)..]))
    else None
  }

  function ParseItems(t: Text): (r: Option<(seq<Json>, Text)>)
    ensures r.Some? ==> |r.value.1| < |t|
    decreases |t|, 1
  {
    var first := ParseValue(t);
    if first.None? || first.value.1 == [] then None
    else if first.value.1[0] == CLOSE_BRACKET then Some(([first.value.0], first.value.1[1..]))
    else if first.value.1[0] != COMMA then None
    else
      var rest := ParseItems(first.value.1[1..]);
      if rest.None? then None else Some(([first.value.0] + rest.value.0, rest.value.1))
  }

  function ParseMembers(t: Text): (r: Option<(seq<(Text, Json)>, Text)>)
    ensures r.Some? ==> |r.value.1| < |t|
    decreases |t|, 1
  {
    if t == [] || t[0] != QUOTE then None
    else
      var key := Unquote(t[1..]);
      if key.None? || key.value.1 == [] || key.value.1[0] != COLON then None
      else
        var child := ParseValue(key.value.1[1..]);
        if child.None? || child.value.1 == [] then None
        else
          var member := (key.value.0, child.value.0);
          if child.value.1[0] == CLOSE_BRACE then Some(([member], child.value.1[1..]))
          else if child.value.1[0] != COMMA then None
          else
            var rest := ParseMembers(child.value.1[1..]);
            if rest.None? then None else Some(([member] + rest.value.0, rest.value.1))
  }

  /** The value a whole text denotes. */
  function Parse(t: Text): Option<Json> {
    var r := ParseValue(t);
    if r.Some? && r.value.1 == [] then Some(r.value.0) else None
  }

  // ---------------------------------------------------------------------------
  // Normal forms
  // ---------------------------------------------------------------------------

  /** The same value with every object's members in key order. */
  function Normalize(v: Json): Json
    decreases v
  {
    match v
    case Array(items) => Array(NormalizeItems(items))
    case Object(members) => Object(SortByKey(NormalizeMembers(members)))
    case _ => v
  }

  function NormalizeItems(items: seq<Json>): (r: seq<Json>)
    ensures |r| == |items|
    decreases items
  {
    if items == [] then [] else [Normalize(items[0])] + NormalizeItems(items[1..])
  }

  function NormalizeMembers(members: seq<(Text, Json)>): (r: seq<(Text, Json)>)
    ensures |r| == |members|
    ensures forall i :: 0 <= i < |members| ==> r[i].0 == members[i].0
    decreases members
  {
    if members == [] then [] else [NormalizeMember(members[0])] + NormalizeMembers(members[1..])
  }

  function NormalizeMember(member: (Text, Json)): (r: (Text, Json))
    ensures r.0 == member.0
    decreases member
  {
    (member.0, Normalize(member.1))
  }

  /** Prints a value in the order it has. */
  function Print(v: Json): Text
    decreases v
  {
    match v
    case Null => NULL_TEXT
    case Bool(flag) => if flag then TRUE_TEXT else FALSE_TEXT
    case Number(token) => token
    case Str(text) => Quote(text)
    case Array(items) => [OPEN_BRACKET] + Join(PrintItems(items)) + [CLOSE_BRACKET]
    case Object(members) => [OPEN_BRACE] + Join(Entries(PrintMembers(members))) + [CLOSE_BRACE]
    case NotJson => []
  }

  function PrintItems(items: seq<Json>): (r: seq<Text>)
    ensures |r| == |items|
    decreases items
  {
    if items == [] then [] else [Print(items[0])] + PrintItems(items[1..])
  }

  function PrintMembers(members: seq<(Text, Json)>): (r: seq<(Text, Text)>)
    ensures |r| == |members|
    decreases members
  {
    if members == [] then [] else [PrintMember(members[0])] + PrintMembers(members[1..])
  }

  function PrintMember(member: (Text, Json)): (Text, Text)
    decreases member
  {
    (member.0, Print(member.1))
  }
}
