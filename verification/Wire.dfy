/** The "add alert" message: what it says, its bytes, and a parser of bytes
    that is proved to be the inverse of the serializer. */
module Wire {
  import opened Domain

  /** One comparison as sent; the operator is any byte until it is validated. */
  datatype WireRequirement = WireRequirement(variable: Variable, operator: byte, value: int) {
    /** int16 for temperatures, uint16 or uint32 for the others. */
    predicate InRange() {
      match variable
      case Temperature => -0x8000 <= value < 0x8000
      case LightIntensity => 0 <= value < TWO_TO_THE_32
      case _ => 0 <= value < TWO_TO_THE_16
    }
  }

  datatype WireLed = WireLed(color: byte, pattern: byte)

  /** A message with its ORed groups, empty ones included. */
  datatype Message = Message(
    alertId: byte,
    warmupMs: uint32,
    cooldownMs: uint32,
    connectivity: bool,
    led: Option<WireLed>,
    groups: seq<seq<WireRequirement>>)

  function Total(groups: seq<seq<WireRequirement>>): nat {
    if groups == [] then 0 else |groups[0]| + Total(groups[1..])
  }

  /** The message fits the format and a condition of `room` requirements. */
  predicate Encodable(m: Message, room: nat) {
    && |m.groups| < TWO_TO_THE_8 && Total(m.groups) <= room
    && EncodableGroups(m.groups)
  }

  predicate AllInRange(g: seq<WireRequirement>) {
    forall i | 0 <= i < |g| :: g[i].InRange()
  }

  predicate EncodableGroup(g: seq<WireRequirement>) {
    |g| < TWO_TO_THE_8 && AllInRange(g)
  }

  predicate EncodableGroups(groups: seq<seq<WireRequirement>>) {
    forall i | 0 <= i < |groups| :: EncodableGroup(groups[i])
  }

  // ---- serializer ----

  function U16(x: int): seq<byte>
    requires 0 <= x < TWO_TO_THE_16
  {
    [x % 0x100, x / 0x100]
  }

  function U32(x: uint32): seq<byte> {
    [x % 0x100, x / 0x100 % 0x100, x / 0x100 / 0x100 % 0x100, x / 0x100 / 0x100 / 0x100]
  }

  function VariableId(v: Variable): byte {
    match v case Temperature => 0 case Pressure => 1 case Humidity => 2 case LightIntensity => 3
  }

  function SerializeValue(r: WireRequirement): seq<byte>
    requires r.InRange()
  {
    match r.variable
    case Temperature => U16(if r.value < 0 then r.value + TWO_TO_THE_16 else r.value)
    case LightIntensity => U32(r.value)
    case _ => U16(r.value)
  }

  function SerializeRequirement(r: WireRequirement): seq<byte>
    requires r.InRange()
  {
    [VariableId(r.variable), r.operator] + SerializeValue(r)
  }

  function SerializeRequirements(g: seq<WireRequirement>): seq<byte>
    requires AllInRange(g)
  {
    if g == [] then [] else SerializeRequirement(g[0]) + SerializeRequirements(g[1..])
  }

  function SerializeGroups(groups: seq<seq<WireRequirement>>): seq<byte>
    requires EncodableGroups(groups)
  {
    if groups == [] then []
    else
      assert EncodableGroup(groups[0]) && EncodableGroups(groups[1..]);
      [|groups[0]|] + SerializeRequirements(groups[0]) + SerializeGroups(groups[1..])
  }

  function SerializeLed(led: Option<WireLed>): seq<byte> {
    match led case None => [] case Some(l) => [l.color, l.pattern]
  }

  function Serialize(m: Message, room: nat): seq<byte>
    requires Encodable(m, room)
  {
    [m.alertId] + U32(m.warmupMs) + U32(m.cooldownMs)
    + [(if m.connectivity then 1 else 0) + (if m.led.Some? then 2 else 0)] + SerializeLed(m.led)
    + [|m.groups|] + SerializeGroups(m.groups)
  }

  // ---- parser ----

  datatype Parsed<+T> = Fail | Ok(value: T, rest: seq<byte>)

  /** The little-endian value of two bytes; their bits do not overlap, so that
      the source's `|` is a sum (`OrIsSum`). */
  function LittleEndian2(b0: int, b1: int): int {
    b0 + 0x100 * b1
  }

  function LittleEndian4(b0: int, b1: int, b2: int, b3: int): int {
    b0 + 0x100 * b1 + 0x1_0000 * b2 + 0x100_0000 * b3
  }

  lemma OrIsSum(b0: bv32, b1: bv32, b2: bv32, b3: bv32)
    requires b0 < 0x100 && b1 < 0x100 && b2 < 0x100 && b3 < 0x100
    ensures (b0 | (b1 << 8) | (b2 << 16) | (b3 << 24)) == b0 + 0x100 * b1 + 0x1_0000 * b2 + 0x100_0000 * b3
  {
  }

  function ParseU16(b: seq<byte>): (p: Parsed<int>)
    ensures p.Ok? <==> |b| >= 2
    ensures p.Ok? ==> p.rest == b[2..]
  {
    if |b| < 2 then Fail else Ok(LittleEndian2(b[0], b[1]), b[2..])
  }

  function ParseU32(b: seq<byte>): (p: Parsed<uint32>)
    ensures p.Ok? <==> |b| >= 4
    ensures p.Ok? ==> p.rest == b[4..]
  {
    if |b| < 4 then Fail else Ok(LittleEndian4(b[0], b[1], b[2], b[3]), b[4..])
  }

  function Signed16(x: int): int {
    if x < 0x8000 then x else x - TWO_TO_THE_16
  }

  function ParseRequirement(b: seq<byte>): Parsed<WireRequirement> {
    if |b| < 2 then Fail
    else
      var op, rest := b[1], b[2..];
      match b[0]
      case 0 =>
        (match ParseU16(rest) case Fail => Fail case Ok(x, r) => Ok(WireRequirement(Temperature, op, Signed16(x)), r))
      case 1 => (match ParseU16(rest) case Fail => Fail case Ok(x, r) => Ok(WireRequirement(Pressure, op, x), r))
      case 2 => (match ParseU16(rest) case Fail => Fail case Ok(x, r) => Ok(WireRequirement(Humidity, op, x), r))
      case 3 => (match ParseU32(rest) case Fail => Fail case Ok(x, r) => Ok(WireRequirement(LightIntensity, op, x), r))
      case _ => Fail
  }

  /** `n` requirements, of which at most `room` are allowed. */
  function ParseRequirements(b: seq<byte>, n: nat, room: nat): (p: Parsed<seq<WireRequirement>>)
    ensures p.Ok? ==> |p.value| == n <= room
    decreases n
  {
    if n == 0 then Ok([], b)
    else if room == 0 then Fail
    else
      match ParseRequirement(b)
      case Fail => Fail
      case Ok(r, rest) =>
        match ParseRequirements(rest, n - 1, room - 1)
        case Fail => Fail
        case Ok(g, rest') => Ok([r] + g, rest')
  }

  function ParseGroups(b: seq<byte>, n: nat, room: nat): Parsed<seq<seq<WireRequirement>>>
    decreases n
  {
    if n == 0 then Ok([], b)
    else if |b| < 1 then Fail
    else
      match ParseRequirements(b[1..], b[0], room)
      case Fail => Fail
      case Ok(g, rest) =>
        match ParseGroups(rest, n - 1, room - |g|)
        case Fail => Fail
        case Ok(gs, rest') => Ok([g] + gs, rest')
  }

  function ParseLed(b: seq<byte>, present: bool): Parsed<Option<WireLed>> {
    if !present then Ok(None, b) else if |b| < 2 then Fail else Ok(Some(WireLed(b[0], b[1])), b[2..])
  }

  /** The payload of an "add alert" message; trailing bytes are refused. */
  function Parse(b: seq<byte>, room: nat): Option<Message> {
    if |b| < 10 || b[9] > 3 then None
    else
      match ParseLed(b[10..], b[9] >= 2)
      case Fail => None
      case Ok(led, r1) =>
        if |r1| < 1 then None
        else
          match ParseGroups(r1[1..], r1[0], room)
          case Fail => None
          case Ok(groups, r2) =>
            if r2 != [] then None
            else Some(Message(b[0], ParseU32(b[1..]).value, ParseU32(b[5..]).value, b[9] % 2 == 1, led, groups))
  }

  // ---- the layout, byte by byte ----

  /** Identifier, operator and a value of two bytes, of four for the light
      intensity; the lower byte comes first, and temperatures are signed. */
  lemma RequirementLayout(b: seq<byte>)
    ensures ParseRequirement(b).Ok? <==> |b| >= 4 && b[0] <= 3 && (b[0] == 3 ==> |b| >= 6)
    ensures ParseRequirement(b).Ok? ==>
              var p := ParseRequirement(b);
              && p.value.operator == b[1] && p.rest == (if b[0] == 3 then b[6..] else b[4..])
              && (p.value.variable == Temperature <==> b[0] == 0) && (p.value.variable == Pressure <==> b[0] == 1)
              && (p.value.variable == Humidity <==> b[0] == 2) && (p.value.variable == LightIntensity <==> b[0] == 3)
              && p.value.value ==
                 (if b[0] == 3 then b[2] as int + 256 * b[3] as int + 65536 * b[4] as int + 16777216 * b[5] as int
                  else if b[0] == 0 && b[3] >= 128 then b[2] as int + 256 * b[3] as int - 65536
                  else b[2] as int + 256 * b[3] as int)
  {
  }

  /** Id, warmup and cooldown period of four bytes each, the flags (1 for a status
      message, 2 for the LED), colour and pattern if flagged, and the number of
      groups, which come next. */
  lemma HeaderLayout(b: seq<byte>, room: nat)
    requires Parse(b, room).Some?
    ensures |b| >= 11 && b[9] <= 3 && (b[9] >= 2 ==> |b| >= 13)
    ensures var m := Parse(b, room).value;
            && m.alertId == b[0]
            && m.warmupMs == b[1] as int + 256 * b[2] as int + 65536 * b[3] as int + 16777216 * b[4] as int
            && m.cooldownMs == b[5] as int + 256 * b[6] as int + 65536 * b[7] as int + 16777216 * b[8] as int
            && (m.connectivity <==> b[9] == 1 || b[9] == 3)
            && m.led == (if b[9] >= 2 then Some(WireLed(b[10], b[11])) else None)
            && var k := if b[9] >= 2 then 12 else 10;
               |m.groups| == b[k] && ParseGroups(b[k + 1..], b[k], room) == Ok(m.groups, [])
  {
    hide ParseGroups;
    var k := if b[9] >= 2 then 12 else 10;
    assert b[9] >= 2 ==> b[10..][2..] == b[12..];
    assert b[k..][1..] == b[k + 1..];
    GroupsCount(b[k + 1..], b[k], room);
  }

  /** The groups one after the other, each with its number of comparisons first. */
  lemma GroupsLayout(b: seq<byte>, n: nat, room: nat)
    ensures n == 0 ==> ParseGroups(b, n, room) == Ok([], b)
    ensures n > 0 ==>
              (ParseGroups(b, n, room).Ok? <==>
                 && |b| >= 1 && ParseRequirements(b[1..], b[0], room).Ok?
                 && var head := ParseRequirements(b[1..], b[0], room);
                    ParseGroups(head.rest, n - 1, room - |head.value|).Ok?)
    ensures n > 0 && ParseGroups(b, n, room).Ok? ==>
              var head := ParseRequirements(b[1..], b[0], room);
              ParseGroups(b, n, room).value[0] == head.value
              && ParseGroups(b, n, room).value[1..] == ParseGroups(head.rest, n - 1, room - |head.value|).value
  {
  }

  lemma {:induction false} GroupsCount(b: seq<byte>, n: nat, room: nat)
    ensures ParseGroups(b, n, room).Ok? ==> |ParseGroups(b, n, room).value| == n
    decreases n
  {
    if n > 0 && ParseGroups(b, n, room).Ok? {
      var head := ParseRequirements(b[1..], b[0], room);
      GroupsCount(head.rest, n - 1, room - |head.value|);
    }
  }

  // ---- the parser inverts the serializer ----

  lemma U32Inverse(x: uint32, rest: seq<byte>)
    ensures ParseU32(U32(x) + rest) == Ok(x, rest)
  {
  }

  lemma U16Exact(b: seq<byte>)
    requires |b| >= 2
    ensures (var x := ParseU16(b).value; 0 <= x < TWO_TO_THE_16 && U16(x) + b[2..] == b)
  {
  }

  lemma U32Exact(b: seq<byte>)
    requires |b| >= 4
    ensures U32(ParseU32(b).value) + b[4..] == b
  {
    var b0: int, b1: int, b2: int, b3: int := b[0], b[1], b[2], b[3];
    var x := LittleEndian4(b0, b1, b2, b3);
    assert x / 0x100 == b1 + 0x100 * b2 + 0x1_0000 * b3 && x % 0x100 == b0;
    var q := x / 0x100;
    assert q / 0x100 == b2 + 0x100 * b3 && q % 0x100 == b1;
    var q' := q / 0x100;
    assert q' / 0x100 == b3 && q' % 0x100 == b2;
  }

  lemma RequirementInverse(r: WireRequirement, rest: seq<byte>)
    requires r.InRange()
    ensures ParseRequirement(SerializeRequirement(r) + rest) == Ok(r, rest)
  {
  }

  lemma RequirementExact(b: seq<byte>)
    requires ParseRequirement(b).Ok?
    ensures (var p := ParseRequirement(b); p.value.InRange() && SerializeRequirement(p.value) + p.rest == b)
  {
    hide ParseU16, ParseU32, U16, U32;
    if b[0] == 3 {
      U32Exact(b[2..]);
    } else {
      U16Exact(b[2..]);
    }
    var p := ParseRequirement(b);
    assert b == [b[0], b[1]] + b[2..];
    assert b[2..] == SerializeValue(p.value) + p.rest;
  }

  lemma {:induction false} RequirementsInverse(g: seq<WireRequirement>, room: nat, rest: seq<byte>)
    requires |g| <= room && AllInRange(g)
    ensures ParseRequirements(SerializeRequirements(g) + rest, |g|, room) == Ok(g, rest)
  {
    assert forall i | 0 <= i < |g| :: g[i].InRange();
    assert g != [] ==> AllInRange(g[1..]);
    if g == [] {
      assert SerializeRequirements(g) + rest == rest;
    } else {
      hide ParseRequirement, SerializeRequirement, SerializeRequirements, AllInRange;
      var r, tail := g[0], SerializeRequirements(g[1..]) + rest;
      assert g == [r] + g[1..];
      ConsInRange(r, g[1..]);
      Associate(SerializeRequirement(r), SerializeRequirements(g[1..]), rest);
      RequirementInverse(r, tail);
      RequirementsInverse(g[1..], room - 1, rest);
    }
  }

  lemma Associate<T>(a: seq<T>, b: seq<T>, c: seq<T>)
    ensures (a + b) + c == a + (b + c)
  {
  }

  lemma ConsInRange(r: WireRequirement, g: seq<WireRequirement>)
    requires r.InRange() && AllInRange(g)
    ensures AllInRange([r] + g)
    ensures SerializeRequirements([r] + g) == SerializeRequirement(r) + SerializeRequirements(g)
  {
  }

  lemma {:induction false} RequirementsExact(b: seq<byte>, n: nat, room: nat)
    requires ParseRequirements(b, n, room).Ok?
    ensures (var p := ParseRequirements(b, n, room);
             AllInRange(p.value) && SerializeRequirements(p.value) + p.rest == b)
    decreases n
  {
    if n > 0 {
      hide ParseRequirement, SerializeRequirement, SerializeRequirements, AllInRange;
      var head := ParseRequirement(b);
      RequirementExact(b);
      var tail := ParseRequirements(head.rest, n - 1, room - 1);
      RequirementsExact(head.rest, n - 1, room - 1);
      ConsInRange(head.value, tail.value);
      Associate(SerializeRequirement(head.value), SerializeRequirements(tail.value), tail.rest);
    }
  }

  lemma ConsGroup(g: seq<WireRequirement>, groups: seq<seq<WireRequirement>>)
    requires EncodableGroup(g) && EncodableGroups(groups)
    ensures EncodableGroups([g] + groups) && Total([g] + groups) == |g| + Total(groups)
    ensures SerializeGroups([g] + groups) == [|g|] + (SerializeRequirements(g) + SerializeGroups(groups))
  {
  }

  lemma {:induction false} GroupsInverse(groups: seq<seq<WireRequirement>>, room: nat, rest: seq<byte>)
    requires Total(groups) <= room && EncodableGroups(groups)
    ensures ParseGroups(SerializeGroups(groups) + rest, |groups|, room) == Ok(groups, rest)
  {
    if groups == [] {
      assert SerializeGroups(groups) + rest == rest;
    } else {
      var g, gs := groups[0], groups[1..];
      assert groups == [g] + gs && EncodableGroup(g) && EncodableGroups(gs);
      ConsGroup(g, gs);
      GroupInverse(g, gs, room, rest);
      GroupsInverse(gs, room - |g|, rest);
    }
  }

  lemma GroupInverse(g: seq<WireRequirement>, gs: seq<seq<WireRequirement>>, room: nat, rest: seq<byte>)
    requires EncodableGroup(g) && EncodableGroups(gs) && |g| <= room
    ensures (var b := SerializeGroups([g] + gs) + rest;
             && |b| >= 1 && b[0] == |g|
             && ParseRequirements(b[1..], |g|, room) == Ok(g, SerializeGroups(gs) + rest))
  {
    hide ParseRequirements, SerializeRequirements, SerializeGroups, EncodableGroups;
    ConsGroup(g, gs);
    RequirementsInverse(g, room, SerializeGroups(gs) + rest);
    var b := SerializeGroups([g] + gs) + rest;
    assert b[1..] == (SerializeRequirements(g) + SerializeGroups(gs)) + rest;
    Associate(SerializeRequirements(g), SerializeGroups(gs), rest);
  }

  lemma GroupJoin(b: seq<byte>, g: seq<WireRequirement>, mid: seq<byte>,
                  gs: seq<seq<WireRequirement>>, rest: seq<byte>)
    requires EncodableGroup(g) && EncodableGroups(gs) && |b| >= 1 && b[0] == |g|
    requires SerializeRequirements(g) + mid == b[1..] && SerializeGroups(gs) + rest == mid
    ensures EncodableGroups([g] + gs) && SerializeGroups([g] + gs) + rest == b
  {
  }

  lemma ParseOneGroup(b: seq<byte>, n: nat, room: nat)
    requires n > 0 && ParseGroups(b, n, room).Ok?
    ensures |b| >= 1
    ensures (var head := ParseRequirements(b[1..], b[0], room);
             && head.Ok? && |head.value| == b[0] <= room
             && var tail := ParseGroups(head.rest, n - 1, room - |head.value|);
                tail.Ok? && ParseGroups(b, n, room) == Ok([head.value] + tail.value, tail.rest))
  {
  }

  ghost predicate GroupsRead(b: seq<byte>, n: nat, room: nat, p: Parsed<seq<seq<WireRequirement>>>) {
    && p.Ok? && |p.value| == n && Total(p.value) <= room && EncodableGroups(p.value)
    && SerializeGroups(p.value) + p.rest == b
  }

  lemma {:induction false} GroupsExact(b: seq<byte>, n: nat, room: nat)
    requires ParseGroups(b, n, room).Ok?
    ensures GroupsRead(b, n, room, ParseGroups(b, n, room))
    decreases n
  {
    hide *;
    if n == 0 {
      NoGroupsRead(b, room);
    } else {
      ParseOneGroup(b, n, room);
      var head := ParseRequirements(b[1..], b[0], room);
      RequirementsExact(b[1..], b[0], room);
      GroupsExact(head.rest, n - 1, room - |head.value|);
      GroupsReadOneMore(b, n, room, head, ParseGroups(head.rest, n - 1, room - |head.value|));
    }
  }

  lemma NoGroupsRead(b: seq<byte>, room: nat)
    ensures GroupsRead(b, 0, room, ParseGroups(b, 0, room))
  {
  }

  lemma GroupsReadOneMore(b: seq<byte>, n: nat, room: nat,
                          head: Parsed<seq<WireRequirement>>, tail: Parsed<seq<seq<WireRequirement>>>)
    requires n > 0 && |b| >= 1 && head.Ok? && |head.value| == b[0] <= room && AllInRange(head.value)
    requires SerializeRequirements(head.value) + head.rest == b[1..]
    requires GroupsRead(head.rest, n - 1, room - |head.value|, tail)
    ensures GroupsRead(b, n, room, Ok([head.value] + tail.value, tail.rest))
  {
    hide Total, SerializeRequirements, SerializeGroups, EncodableGroups, AllInRange;
    ConsGroup(head.value, tail.value);
    GroupJoin(b, head.value, head.rest, tail.value, tail.rest);
  }

  /** The bytes of a message in front of its groups. */
  function Header(m: Message): seq<byte> {
    [m.alertId] + U32(m.warmupMs) + U32(m.cooldownMs)
    + [(if m.connectivity then 1 else 0) + (if m.led.Some? then 2 else 0)]
  }

  lemma HeaderInverse(m: Message, rest: seq<byte>)
    ensures (var b := Header(m) + rest;
             && |b| >= 10 && b[0] == m.alertId && b[10..] == rest
             && ParseU32(b[1..]).value == m.warmupMs && ParseU32(b[5..]).value == m.cooldownMs
             && b[9] <= 3 && (b[9] >= 2 <==> m.led.Some?) && (b[9] % 2 == 1 <==> m.connectivity))
  {
    hide U32, ParseU32;
    U32Length(m.warmupMs);
    U32Length(m.cooldownMs);
    var b := Header(m) + rest;
    FlagsInverse(m);
    assert b[9] == Header(m)[9];
    var after := [b[9]] + rest;
    assert b[5..] == U32(m.cooldownMs) + after;
    U32Inverse(m.cooldownMs, after);
    assert b[1..] == U32(m.warmupMs) + b[5..];
    U32Inverse(m.warmupMs, b[5..]);
  }

  lemma FlagsInverse(m: Message)
    ensures |Header(m)| == 10
    ensures var flags := Header(m)[9];
            flags <= 3 && (flags >= 2 <==> m.led.Some?) && (flags % 2 == 1 <==> m.connectivity)
  {
  }

  lemma U32Length(x: uint32)
    ensures |U32(x)| == 4
    ensures forall b: seq<byte> | |b| >= 4 :: ParseU32(b).Ok?
  {
  }

  lemma HeaderExact(m: Message, b: seq<byte>)
    requires |b| >= 10 && b[0] == m.alertId && b[9] <= 3
    requires ParseU32(b[1..]).value == m.warmupMs && ParseU32(b[5..]).value == m.cooldownMs
    requires (b[9] >= 2 <==> m.led.Some?) && (b[9] % 2 == 1 <==> m.connectivity)
    ensures Header(m) + b[10..] == b
  {
    hide U32, ParseU32;
    FourBytes(b, 1);
    FourBytes(b, 5);
    assert Header(m) == [b[0]] + b[1..5] + b[5..9] + [b[9]];
    assert b[..10] == [b[0]] + b[1..5] + b[5..9] + [b[9]];
    assert b == b[..10] + b[10..];
  }

  lemma FourBytes(b: seq<byte>, k: nat)
    requires |b| >= k + 4
    ensures U32(ParseU32(b[k..]).value) == b[k..k + 4]
  {
    hide U32, ParseU32;
    U32Exact(b[k..]);
    U32Length(ParseU32(b[k..]).value);
    var w := U32(ParseU32(b[k..]).value);
    assert w == (w + b[k..][4..])[..4];
  }

  lemma LedInverse(led: Option<WireLed>, rest: seq<byte>)
    ensures ParseLed(SerializeLed(led) + rest, led.Some?) == Ok(led, rest)
  {
  }

  lemma LedExact(b: seq<byte>, present: bool)
    requires ParseLed(b, present).Ok?
    ensures (var p := ParseLed(b, present); p.value.Some? == present && SerializeLed(p.value) + p.rest == b)
  {
  }

  /** Parsing what was serialized gives the message back. */
  lemma ParseInvertsSerialize(m: Message, room: nat)
    requires Encodable(m, room)
    ensures Parse(Serialize(m, room), room) == Some(m)
  {
    hide ParseGroups, SerializeGroups, ParseLed, SerializeLed, Header, ParseU32, U32;
    var groups := [|m.groups|] + SerializeGroups(m.groups);
    SerializeParts(m, room);
    HeaderInverse(m, SerializeLed(m.led) + groups);
    LedInverse(m.led, groups);
    assert groups[1..] == SerializeGroups(m.groups) + [];
    GroupsInverse(m.groups, room, []);
  }

  lemma SerializeParts(m: Message, room: nat)
    requires Encodable(m, room)
    ensures Serialize(m, room) == Header(m) + (SerializeLed(m.led) + ([|m.groups|] + SerializeGroups(m.groups)))
  {
  }

  /** Conversely, whatever is accepted was read to its last byte and is the
      serialization of the result. */
  lemma ParseIsExact(b: seq<byte>, room: nat)
    requires Parse(b, room).Some?
    ensures Encodable(Parse(b, room).value, room) && Serialize(Parse(b, room).value, room) == b
  {
    hide ParseGroups, SerializeGroups, SerializeLed, Header, ParseU32, U32, EncodableGroups;
    var m := Parse(b, room).value;
    var led := ParseLed(b[10..], b[9] >= 2);
    LedExact(b[10..], b[9] >= 2);
    var p := ParseGroups(led.rest[1..], led.rest[0], room);
    GroupsExact(led.rest[1..], led.rest[0], room);
    assert led.rest == [|m.groups|] + SerializeGroups(m.groups) by {
      assert led.rest == [led.rest[0]] + led.rest[1..];
      assert led.rest[1..] == SerializeGroups(p.value) + [];
    }
    HeaderExact(m, b);
    SerializeParts(m, room);
  }

  const HOT := WireRequirement(Temperature, 0, 200)
  const COLD := WireRequirement(Temperature, 1, -100)
  const BRIGHT := WireRequirement(LightIntensity, 0, 100000)

  /** A message in bytes: alert 5, warmup 10 s, cooldown 1 min, status message and
      LED (green, alert); at least 20 degrees or at most -10 degrees; and at least
      100000 lux. */
  lemma MessageOfTheExample()
    ensures Parse([5, 16, 39, 0, 0, 96, 234, 0, 0, 3, 1, 1,
                   2, 2, 0, 0, 200, 0, 0, 1, 156, 255, 1, 3, 0, 160, 134, 1, 0], 4) ==
            Some(Message(5, 10000, 60000, true, Some(WireLed(1, 1)), [[HOT, COLD], [BRIGHT]]))
  {
    hide Parse, SerializeGroups, SerializeRequirements, SerializeRequirement, U32;
    var groups: seq<seq<WireRequirement>> := [[HOT, COLD], [BRIGHT]];
    var m := Message(5, 10000, 60000, true, Some(WireLed(1, 1)), groups);
    NumbersOfTheExample();
    GroupsOfTheExample();
    assert Header(m) == [5, 16, 39, 0, 0, 96, 234, 0, 0, 3];
    SerializeParts(m, 4);
    var bytes := [2, 2, 0, 0, 200, 0, 0, 1, 156, 255, 1, 3, 0, 160, 134, 1, 0];
    assert [|groups|] + SerializeGroups(groups) == bytes;
    assert Serialize(m, 4) == [5, 16, 39, 0, 0, 96, 234, 0, 0, 3] + ([1, 1] + bytes);
    AllBytesJoin();
    ParseInvertsSerialize(m, 4);
  }

  lemma NumbersOfTheExample()
    ensures U32(10000) == [16, 39, 0, 0] && U32(60000) == [96, 234, 0, 0]
    ensures SerializeRequirement(HOT) == [0, 0, 200, 0] && SerializeRequirement(COLD) == [0, 1, 156, 255]
    ensures SerializeRequirement(BRIGHT) == [3, 0, 160, 134, 1, 0]
  {
  }

  lemma OneRequirementMore(r: WireRequirement, g: seq<WireRequirement>)
    requires r.InRange() && AllInRange(g)
    ensures AllInRange([r] + g)
    ensures SerializeRequirements([r] + g) == SerializeRequirement(r) + SerializeRequirements(g)
  {
    assert ([r] + g)[1..] == g;
  }

  lemma OneGroupMore(g: seq<WireRequirement>, groups: seq<seq<WireRequirement>>)
    requires EncodableGroup(g) && EncodableGroups(groups)
    ensures EncodableGroups([g] + groups) && Total([g] + groups) == |g| + Total(groups)
    ensures SerializeGroups([g] + groups) == [|g|] + SerializeRequirements(g) + SerializeGroups(groups)
  {
    assert ([g] + groups)[1..] == groups;
  }

  lemma GroupsOfTheExample()
    ensures EncodableGroups([[HOT, COLD], [BRIGHT]]) && Total([[HOT, COLD], [BRIGHT]]) == 3
    ensures SerializeGroups([[HOT, COLD], [BRIGHT]]) ==
            [2, 0, 0, 200, 0, 0, 1, 156, 255, 1, 3, 0, 160, 134, 1, 0]
  {
    var noGroup: seq<seq<WireRequirement>> := [];
    RequirementsOfTheExample();
    assert SerializeGroups(noGroup) == [] && Total(noGroup) == 0;
    hide SerializeRequirements, SerializeGroups, Total;
    OneGroupMore([BRIGHT], noGroup);
    assert [[BRIGHT]] + noGroup == [[BRIGHT]];
    assert SerializeGroups([[BRIGHT]]) == [1, 3, 0, 160, 134, 1, 0];
    OneGroupMore([HOT, COLD], [[BRIGHT]]);
    assert [[HOT, COLD]] + [[BRIGHT]] == [[HOT, COLD], [BRIGHT]];
    var bytes := SerializeGroups([[HOT, COLD], [BRIGHT]]);
    assert bytes == [2] + [0, 0, 200, 0, 0, 1, 156, 255] + [1, 3, 0, 160, 134, 1, 0];
    BytesJoin();
  }

  lemma AllBytesJoin()
    ensures var bytes: seq<byte> := [2, 2, 0, 0, 200, 0, 0, 1, 156, 255, 1, 3, 0, 160, 134, 1, 0];
            [5, 16, 39, 0, 0, 96, 234, 0, 0, 3] + ([1, 1] + bytes) ==
            [5, 16, 39, 0, 0, 96, 234, 0, 0, 3, 1, 1,
             2, 2, 0, 0, 200, 0, 0, 1, 156, 255, 1, 3, 0, 160, 134, 1, 0]
  {
  }

  lemma BytesJoin()
    ensures [2] + [0, 0, 200, 0, 0, 1, 156, 255] + [1, 3, 0, 160, 134, 1, 0] ==
            [2, 0, 0, 200, 0, 0, 1, 156, 255, 1, 3, 0, 160, 134, 1, 0]
  {
  }

  lemma RequirementsOfTheExample()
    ensures EncodableGroup([HOT, COLD]) && SerializeRequirements([HOT, COLD]) == [0, 0, 200, 0, 0, 1, 156, 255]
    ensures EncodableGroup([BRIGHT]) && SerializeRequirements([BRIGHT]) == [3, 0, 160, 134, 1, 0]
  {
    var none: seq<WireRequirement> := [];
    NumbersOfTheExample();
    assert SerializeRequirements(none) == [];
    hide SerializeRequirement, SerializeRequirements;
    OneRequirementMore(BRIGHT, none);
    assert [BRIGHT] + none == [BRIGHT];
    OneRequirementMore(COLD, none);
    assert [COLD] + none == [COLD];
    assert SerializeRequirements([COLD]) == [0, 1, 156, 255];
    OneRequirementMore(HOT, [COLD]);
    assert [HOT] + [COLD] == [HOT, COLD];
  }
}
