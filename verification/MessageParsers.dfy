/** The receiving half of the message transceiver
    (src/app/middleware/msg_transceiver.c:86-548): one pass over the bytes with
    an index, filling a flat array of requirements. It computes `Wire.Parse`. */
module MessageParsers {
  import opened Domain
  import opened Wire

  /** A requirement with the flag that ends its ORed group. */
  datatype FlatRequirement = FlatRequirement(requirement: WireRequirement, isLastInOredRequirement: bool)

  /** The alert handed to the application. */
  datatype Alert = Alert(
    alertId: byte,
    warmupMs: uint32,
    cooldownMs: uint32,
    connectivity: bool,
    led: Option<WireLed>,
    requirements: seq<FlatRequirement>)

  function FlattenGroup(g: seq<WireRequirement>): (r: seq<FlatRequirement>)
    ensures |r| == |g| && forall i | 0 <= i < |r| :: r[i] == FlatRequirement(g[i], i == |g| - 1)
  {
    seq(|g|, i requires 0 <= i < |g| => FlatRequirement(g[i], i == |g| - 1))
  }

  /** Empty groups leave no trace. */
  function FlattenGroups(groups: seq<seq<WireRequirement>>): (r: seq<FlatRequirement>)
    ensures |r| == Total(groups)
  {
    if groups == [] then [] else FlattenGroup(groups[0]) + FlattenGroups(groups[1..])
  }

  function Flatten(m: Message): Alert {
    Alert(m.alertId, m.warmupMs, m.cooldownMs, m.connectivity, m.led, FlattenGroups(m.groups))
  }

  /** There are `desired` bytes from `index` on. */
  predicate IsXBytesAvailable(desired: nat, total: nat, index: nat) {
    desired == 0 || (index < total && total - index >= desired)
  }

  method ParseVariableRequirement(bytes: seq<byte>, index: nat) returns (r: Option<WireRequirement>, next: nat)
    requires index <= |bytes|
    ensures next <= |bytes|
    ensures match ParseRequirement(bytes[index..])
            case Fail => r == None
            case Ok(x, rest) => r == Some(x) && bytes[next..] == rest
  {
    next := index;
    if !IsXBytesAvailable(2, |bytes|, next) { return None, next; }
    var variableIdentifier, operator := bytes[next], bytes[next + 1];
    next := next + 2;
    match variableIdentifier {
      case 0 =>
        if !IsXBytesAvailable(2, |bytes|, next) { return None, next; }
        r := Some(WireRequirement(Temperature, operator, Signed16(LittleEndian2(bytes[next], bytes[next + 1]))));
        next := next + 2;
      case 1 =>
        if !IsXBytesAvailable(2, |bytes|, next) { return None, next; }
        r := Some(WireRequirement(Pressure, operator, LittleEndian2(bytes[next], bytes[next + 1])));
        next := next + 2;
      case 2 =>
        if !IsXBytesAvailable(2, |bytes|, next) { return None, next; }
        r := Some(WireRequirement(Humidity, operator, LittleEndian2(bytes[next], bytes[next + 1])));
        next := next + 2;
      case 3 =>
        if !IsXBytesAvailable(4, |bytes|, next) { return None, next; }
        r := Some(WireRequirement(LightIntensity, operator,
                                  LittleEndian4(bytes[next], bytes[next + 1], bytes[next + 2], bytes[next + 3])));
        next := next + 4;
      case _ => r := None;
    }
  }

  /** Appends one group to the condition, which has space for `room`. */
  method ParseOredRequirement(bytes: seq<byte>, index: nat, condition: seq<FlatRequirement>, room: nat)
    returns (ok: bool, next: nat, extended: seq<FlatRequirement>)
    requires index <= |bytes| && |condition| <= room
    ensures next <= |bytes|
    ensures ok <==> index < |bytes| && ParseRequirements(bytes[index + 1..], bytes[index], room - |condition|).Ok?
    ensures ok ==>
      var p := ParseRequirements(bytes[index + 1..], bytes[index], room - |condition|);
      bytes[next..] == p.rest && extended == condition + FlattenGroup(p.value)
  {
    hide ParseRequirements, ParseRequirement;
    next, extended := index, condition;
    if !IsXBytesAvailable(1, |bytes|, next) { return false, next, extended; }
    var num: nat := bytes[next];
    next := next + 1;
    ghost var all := ParseRequirements(bytes[next..], num, room - |condition|);
    ghost var parsed: seq<WireRequirement> := [];
    var i := 0;
    while i < num
      invariant i == |parsed| <= num && next <= |bytes| && |condition| + i <= room
      invariant extended == condition + Begun(parsed, num)
      invariant Continues(all, parsed, ParseRequirements(bytes[next..], num - i, room - |condition| - i))
    {
      ReadOneMore(all, parsed, bytes[next..], num - i, room - |condition| - i);
      BegunOneMore(parsed, num);
      if |extended| >= room { return false, next, extended; }
      var r, n := ParseVariableRequirement(bytes, next);
      if r == None { return false, n, extended; }
      extended := extended + [FlatRequirement(r.value, i == num - 1)];
      parsed := parsed + [r.value];
      next := n;
      i := i + 1;
    }
    ReadDone(all, parsed, bytes[next..], room - |condition| - num);
    assert Begun(parsed, num) == FlattenGroup(parsed);
    ok := true;
  }

  /** The first requirements of a group of `num`. */
  function Begun(g: seq<WireRequirement>, num: nat): (r: seq<FlatRequirement>)
    ensures |r| == |g| && forall i | 0 <= i < |r| :: r[i] == FlatRequirement(g[i], i == num - 1)
  {
    seq(|g|, i requires 0 <= i < |g| => FlatRequirement(g[i], i == num - 1))
  }

  lemma BegunOneMore(g: seq<WireRequirement>, num: nat)
    ensures forall r :: Begun(g + [r], num) == Begun(g, num) + [FlatRequirement(r, |g| == num - 1)]
  {
  }

  /** `all` is what was parsed so far followed by `rest`. */
  ghost predicate Continues(all: Parsed<seq<WireRequirement>>, parsed: seq<WireRequirement>,
                            rest: Parsed<seq<WireRequirement>>)
  {
    if rest.Ok? then all.Ok? && all.value == parsed + rest.value && all.rest == rest.rest else all.Fail?
  }

  lemma ReadOneMore(all: Parsed<seq<WireRequirement>>, parsed: seq<WireRequirement>, b: seq<byte>, n: nat, room: nat)
    requires n > 0 && Continues(all, parsed, ParseRequirements(b, n, room))
    ensures room == 0 || ParseRequirement(b).Fail? ==> all.Fail?
    ensures room > 0 && ParseRequirement(b).Ok? ==>
      var head := ParseRequirement(b);
      Continues(all, parsed + [head.value], ParseRequirements(head.rest, n - 1, room - 1))
  {
  }

  lemma ReadDone(all: Parsed<seq<WireRequirement>>, parsed: seq<WireRequirement>, b: seq<byte>, room: nat)
    requires Continues(all, parsed, ParseRequirements(b, 0, room))
    ensures all == Ok(parsed, b)
  {
    assert parsed + [] == parsed;
  }

  /** Appends all groups in turn; trailing bytes are the caller's business. */
  method ParseOredRequirements(bytes: seq<byte>, index: nat, num: nat, room: nat)
    returns (ok: bool, next: nat, condition: seq<FlatRequirement>)
    requires index <= |bytes|
    ensures next <= |bytes|
    ensures ok <==> ParseGroups(bytes[index..], num, room).Ok?
    ensures ok ==>
      var p := ParseGroups(bytes[index..], num, room);
      bytes[next..] == p.rest && condition == FlattenGroups(p.value)
  {
    hide ParseGroups, ParseRequirements;
    next, condition := index, [];
    ghost var all := ParseGroups(bytes[index..], num, room);
    ghost var parsed: seq<seq<WireRequirement>> := [];
    var i := 0;
    while i < num
      invariant i == |parsed| <= num && next <= |bytes| && |condition| <= room
      invariant condition == FlattenGroups(parsed)
      invariant GroupsContinue(all, parsed, ParseGroups(bytes[next..], num - i, room - |condition|))
    {
      ReadOneGroup(all, parsed, bytes[next..], num - i, room - |condition|);
      ghost var before := next;
      ok, next, condition := ParseOredRequirement(bytes, next, condition, room);
      if !ok { return; }
      ghost var g := ParseRequirements(bytes[before + 1..], bytes[before], room - |FlattenGroups(parsed)|).value;
      FlattenOneMore(parsed, g);
      parsed := parsed + [g];
      i := i + 1;
    }
    GroupsDone(all, parsed, bytes[next..], room - |condition|);
    ok := true;
  }

  ghost predicate GroupsContinue(all: Parsed<seq<seq<WireRequirement>>>, parsed: seq<seq<WireRequirement>>,
                                 rest: Parsed<seq<seq<WireRequirement>>>)
  {
    if rest.Ok? then all.Ok? && all.value == parsed + rest.value && all.rest == rest.rest else all.Fail?
  }

  lemma ReadOneGroup(all: Parsed<seq<seq<WireRequirement>>>, parsed: seq<seq<WireRequirement>>,
                     b: seq<byte>, n: nat, room: nat)
    requires n > 0 && GroupsContinue(all, parsed, ParseGroups(b, n, room))
    ensures |b| == 0 || ParseRequirements(b[1..], b[0], room).Fail? ==> all.Fail?
    ensures |b| > 0 && ParseRequirements(b[1..], b[0], room).Ok? ==>
      var head := ParseRequirements(b[1..], b[0], room);
      GroupsContinue(all, parsed + [head.value], ParseGroups(head.rest, n - 1, room - |head.value|))
  {
  }

  lemma GroupsDone(all: Parsed<seq<seq<WireRequirement>>>, parsed: seq<seq<WireRequirement>>, b: seq<byte>, room: nat)
    requires GroupsContinue(all, parsed, ParseGroups(b, 0, room))
    ensures all == Ok(parsed, b)
  {
    assert parsed + [] == parsed;
  }

  lemma {:induction false} FlattenOneMore(groups: seq<seq<WireRequirement>>, g: seq<WireRequirement>)
    ensures FlattenGroups(groups + [g]) == FlattenGroups(groups) + FlattenGroup(g)
  {
    if groups == [] {
      assert groups + [g] == [g];
      assert FlattenGroups([g]) == FlattenGroup(g) + FlattenGroups([]);
    } else {
      assert (groups + [g])[1..] == groups[1..] + [g];
      FlattenOneMore(groups[1..], g);
    }
  }

  /** The payload of an "add alert" message, without the message id. */
  method ParseAddAlert(bytes: seq<byte>, room: nat) returns (alert: Option<Alert>)
    ensures alert == match Parse(bytes, room) case None => None case Some(m) => Some(Flatten(m))
  {
    hide ParseGroups;
    var index := 0;
    if !IsXBytesAvailable(1, |bytes|, index) { return None; }
    var alertId := bytes[index];
    index := index + 1;
    if !IsXBytesAvailable(4, |bytes|, index) { return None; }
    var warmupMs := LittleEndian4(bytes[index], bytes[index + 1], bytes[index + 2], bytes[index + 3]);
    index := index + 4;
    if !IsXBytesAvailable(4, |bytes|, index) { return None; }
    var cooldownMs := LittleEndian4(bytes[index], bytes[index + 1], bytes[index + 2], bytes[index + 3]);
    index := index + 4;
    if !IsXBytesAvailable(1, |bytes|, index) { return None; }
    if bytes[index] > 3 { return None; }
    var connectivity, hasLed := bytes[index] % 2 == 1, bytes[index] >= 2;
    index := index + 1;
    var led: Option<WireLed> := None;
    if hasLed {
      if !IsXBytesAvailable(1, |bytes|, index) { return None; }
      var color := bytes[index];
      index := index + 1;
      if !IsXBytesAvailable(1, |bytes|, index) { return None; }
      led := Some(WireLed(color, bytes[index]));
      index := index + 1;
    }
    if !IsXBytesAvailable(1, |bytes|, index) { return None; }
    var numOredRequirements := bytes[index];
    index := index + 1;
    var ok, next, requirements := ParseOredRequirements(bytes, index, numOredRequirements, room);
    if !ok || next != |bytes| { return None; }
    alert := Some(Alert(alertId, warmupMs, cooldownMs, connectivity, led, requirements));
  }
}
