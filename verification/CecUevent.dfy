/** The scan of a received kernel event: a node name and then fields, each ended by a zero, in a
    buffer whose last two bytes are always zero. */
module CecUevent {

  const CEC_BUFFER_SIZE := 4096

  const NUL: char := '\0'

  datatype DeviceType = Playback | TV

  /** node and prop are C strings without their zero. */
  datatype Device = Device(node: string, prop: string, deviceType: DeviceType)

  datatype Action = Nothing | PlugIn | PlugOut

  datatype Option<T> = None | Some(value: T)

  /** What recv leaves in the buffer that was cleared before: len bytes, and zeros. */
  ghost predicate Received(buf: seq<char>, len: nat) {
    && |buf| == CEC_BUFFER_SIZE && len <= CEC_BUFFER_SIZE - 2
    && forall i :: len <= i < CEC_BUFFER_SIZE ==> buf[i] == NUL
  }

  // ---------------------------------------------------------------- C strings

  /** Some zero is at or after s. */
  ghost predicate Terminated(buf: seq<char>, s: int) {
    0 <= s && exists k :: s <= k < |buf| && buf[k] == NUL
  }

  /** The C string at s. */
  ghost predicate StringAt(buf: seq<char>, s: nat, str: string) {
    && s + |str| < |buf|
    && buf[s..s + |str|] == str && buf[s + |str|] == NUL && NUL !in str
  }

  method Strlen(buf: seq<char>, s: nat) returns (n: nat)
    requires Terminated(buf, s)
    ensures s + n < |buf| && StringAt(buf, s, buf[s..s + n])
    ensures forall k :: k >= s && k < |buf| && buf[k] == NUL ==> s + n <= k
  {
    n := 0;
    while buf[s + n] != NUL
      invariant s + n < |buf| && forall k :: s <= k < s + n ==> buf[k] != NUL
      invariant Terminated(buf, s + n)
      decreases |buf| - n
    {
      n := n + 1;
    }
  }

  /** strncmp with the length of prefix: it reads no further than the zero at the end. */
  method StartsWith(buf: seq<char>, s: nat, prefix: string, ghost str: string) returns (yes: bool)
    requires StringAt(buf, s, str) && NUL !in prefix
    ensures yes <==> prefix <= str
  {
    var i := 0;
    while i < |prefix|
      invariant 0 <= i <= |prefix| && i <= |str| && prefix[..i] == str[..i]
    {
      assert i < |str| ==> buf[s + i] == buf[s..s + |str|][i];
      if buf[s + i] != prefix[i] { return false; }
      assert i < |str|;
      i := i + 1;
    }
    yes := true;
  }

  function IsSpace(c: char): bool { c == ' ' || '\t' <= c <= '\r' }

  predicate IsDigit(c: char) { '0' <= c <= '9' }

  /** atoi */
  function Atoi(s: string): int {
    if s != "" && IsSpace(s[0]) then Atoi(s[1..])
    else if s != "" && s[0] == '-' then -(Digits(s[1..], 0) as int)
    else if s != "" && s[0] == '+' then Digits(s[1..], 0)
    else Digits(s, 0)
  }

  function Digits(s: string, n: nat): nat {
    if s == "" || !IsDigit(s[0]) then n else Digits(s[1..], 10 * n + (s[0] - '0') as nat)
  }

  // ---------------------------------------------------------------- the scan

  /** handleCecUEvents up to the call it makes: the device whose node the event names, and what
      is to be done with it. */
  method HandleCecUEvents(devices: seq<Device>, buf: seq<char>, len: nat)
    returns (device: Option<Device>, action: Action)
    requires Received(buf, len) && len > 0
    requires forall d :: d in devices ==> NUL !in d.prop && NUL !in d.node
    ensures device == FirstWithNode(devices, Head(buf, 0))
    ensures device == None ==> action == Nothing
    ensures device.Some? ==>
              action == ActionFor(device.value.deviceType,
                                  LastState(device.value.prop, Scan(buf, len, |Head(buf, 0)| + 1)))
    ensures device == None ==> forall d :: d in devices ==> d.node != Head(buf, 0)
    ensures device.Some? ==>
              exists i :: 0 <= i < |devices| && devices[i] == device.value
                && devices[i].node == Head(buf, 0)
                && forall j :: 0 <= j < i ==> devices[j].node != Head(buf, 0)
    ensures device.Some? ==>
              var tv := device.value.deviceType == TV;
              var state := LastState(device.value.prop, Scan(buf, len, |Head(buf, 0)| + 1));
              && (action == PlugIn <==> state == Some(if tv then 11 else 1))
              && (action == PlugOut <==> state == Some(if tv then 12 else 0))
  {
    AlwaysTerminated(buf, len, 0);
    var n := Strlen(buf, 0);
    HeadIs(buf, 0, buf[0..0 + n]);
    device, action := None, Nothing;
    for i := 0 to |devices|
      invariant device == None
      invariant FirstWithNode(devices, Head(buf, 0)) == FirstWithNode(devices[i..], Head(buf, 0))
      invariant forall j :: 0 <= j < i ==> devices[j].node != Head(buf, 0)
    {
      if devices[i].node == buf[0..n] {
        device := Some(devices[i]);
        break;
      }
    }
    if device == None { return; }
    assert n <= len by { assert buf[len] == NUL; }
    var state := ScanFields(buf, len, n + 1, device.value.prop);
    action := ActionFor(device.value.deviceType, state);
  }

  /** The loop over the fields. */
  method ScanFields(buf: seq<char>, len: nat, start: nat, prop: string) returns (state: Option<int>)
    requires Received(buf, len) && start <= len + 1 && NUL !in prop
    ensures state == LastState(prop, Scan(buf, len, start))
  {
    state := None;
    var s := start;
    ghost var rest, seen: seq<string> := Scan(buf, len, s), [];
    ghost var all := rest;
    AlwaysTerminated(buf, len, s);
    while buf[s] != NUL
      invariant s <= len + 1 && Terminated(buf, s) && rest == Scan(buf, len, s)
      invariant state == LastState(prop, seen) && seen + rest == all
      decreases |buf| - s
    {
      ghost var field;
      state, s, field := ScanField(buf, len, s, prop, state, seen);
      assert rest == [field] + rest[1..];
      Reassociate(seen, field, rest[1..]);
      seen, rest := seen + [field], rest[1..];
      if s >= len {
        assert rest == [] && seen + [] == seen;
        return;
      }
      AlwaysTerminated(buf, len, s);
    }
    assert rest == [] && seen + [] == seen;
  }

  lemma {:induction false} Reassociate(seen: seq<string>, field: string, rest: seq<string>)
    ensures seen + ([field] + rest) == seen + [field] + rest
  {
  }

  /** One field: its number if it starts with prop, and the place behind it. */
  method ScanField(buf: seq<char>, len: nat, s: nat, prop: string, state: Option<int>,
                   ghost seen: seq<string>)
    returns (newState: Option<int>, next: nat, ghost field: string)
    requires Received(buf, len) && s <= len + 1 && buf[s] != NUL && NUL !in prop
    requires state == LastState(prop, seen)
    ensures s < next <= len + 1 && newState == LastState(prop, seen + [field])
    ensures Scan(buf, len, s) == [field] + if next >= len then [] else Scan(buf, len, next)
  {
    AlwaysTerminated(buf, len, s);
    StopsAtEnd(buf, len, s);
    var m := Strlen(buf, s);
    field := buf[s..s + m];
    ScanStep(buf, len, s, field);
    LastStateSnoc(prop, seen, field);
    var yes := StartsWith(buf, s, prop, field);
    newState := state;
    if yes {
      newState := Some(Atoi(buf[s + |prop|..s + m]));
      assert buf[s + |prop|..s + m] == field[|prop|..];
    }
    next := s + m + 1;
  }

  lemma {:induction false} AlwaysTerminated(buf: seq<char>, len: nat, s: nat)
    requires Received(buf, len) && s <= len + 1
    ensures s < |buf| && Terminated(buf, s)
  {
    assert buf[CEC_BUFFER_SIZE - 1] == NUL;
  }

  /** A field that starts inside what was received ends there, or right behind it. */
  lemma {:induction false} StopsAtEnd(buf: seq<char>, len: nat, s: nat)
    requires Received(buf, len) && s <= len + 1 && buf[s] != NUL
    ensures s < len && buf[len] == NUL
  {
  }

  function ActionFor(deviceType: DeviceType, state: Option<int>): Action {
    if state == None then Nothing
    else if (deviceType == Playback && state.value == 0) || (deviceType == TV && state.value == 12)
      then PlugOut
    else if (deviceType == Playback && state.value == 1) || (deviceType == TV && state.value == 11)
      then PlugIn
    else Nothing
  }

  function FirstWithNode(devices: seq<Device>, node: string): Option<Device> {
    if devices == [] then None
    else if devices[0].node == node then Some(devices[0])
    else FirstWithNode(devices[1..], node)
  }

  /** The characters from s up to the first zero. */
  function Head(buf: seq<char>, s: nat): string
    decreases |buf| - s
  {
    if s >= |buf| || buf[s] == NUL then "" else [buf[s]] + Head(buf, s + 1)
  }

  /** The fields from s on: up to an empty one, or to the end of what was received. */
  function Scan(buf: seq<char>, len: nat, s: nat): seq<string>
    decreases |buf| - s
  {
    if s >= |buf| || buf[s] == NUL then []
    else
      var field := Head(buf, s);
      [field] + if s + |field| + 1 >= len then [] else Scan(buf, len, s + |field| + 1)
  }

  /** The number in the last field that starts with prop. */
  function LastState(prop: string, fields: seq<string>): Option<int> {
    if fields == [] then None
    else
      var last := fields[|fields| - 1];
      if prop <= last then Some(Atoi(last[|prop|..])) else LastState(prop, fields[..|fields| - 1])
  }

  lemma {:induction false} HeadIs(buf: seq<char>, s: nat, str: string)
    requires StringAt(buf, s, str)
    ensures Head(buf, s) == str
    decreases |str|
  {
    if str != "" {
      assert buf[s] == buf[s..s + |str|][0];
      assert buf[s + 1..s + 1 + |str[1..]|] == str[1..];
      HeadIs(buf, s + 1, str[1..]);
    }
  }

  lemma {:induction false} ScanStep(buf: seq<char>, len: nat, s: nat, field: string)
    requires StringAt(buf, s, field) && field != ""
    ensures Scan(buf, len, s)
         == [field] + if s + |field| + 1 >= len then [] else Scan(buf, len, s + |field| + 1)
  {
    HeadIs(buf, s, field);
    assert buf[s] == buf[s..s + |field|][0];
  }

  lemma {:induction false} LastStateSnoc(prop: string, fields: seq<string>, field: string)
    ensures LastState(prop, fields + [field])
         == if prop <= field then Some(Atoi(field[|prop|..])) else LastState(prop, fields)
  {
    assert (fields + [field])[..|fields|] == fields;
  }

  // ---------------------------------------------------------------- what the kernel sends

  /** Fields as the kernel packs them, each ended by a zero. */
  function Packed(fields: seq<string>): string {
    if fields == [] then "" else fields[0] + [NUL] + Packed(fields[1..])
  }

  /** The fields before the first empty one. */
  function BeforeEmpty(fields: seq<string>): seq<string> {
    if fields == [] || fields[0] == "" then [] else [fields[0]] + BeforeEmpty(fields[1..])
  }

  /** The scan gives back what was packed into the event, up to the first empty field. */
  lemma {:induction false} ScanUnpacks(buf: seq<char>, len: nat, s: nat, fields: seq<string>)
    requires Received(buf, len) && len == s + |Packed(fields)|
    requires buf[s..len] == Packed(fields)
    requires forall f :: f in fields ==> NUL !in f
    ensures Scan(buf, len, s) == BeforeEmpty(fields)
    decreases |fields|
  {
    if fields == [] {
      assert buf[s] == NUL;
    } else {
      var field, rest := fields[0], fields[1..];
      var t := s + |field| + 1;
      assert field in fields && forall f :: f in rest ==> f in fields;
      PackedAt(buf, s, fields);
      assert t + |Packed(rest)| == len && buf[t..len] == Packed(rest);
      if field == "" {
        assert buf[s] == NUL;
      } else {
        ScanUnpacks(buf, len, t, rest);
        ScanStep(buf, len, s, field);
        PackedNone(rest);
      }
    }
  }

  /** The first field of packed ones is the C string there, and the others follow. */
  lemma {:induction false} PackedAt(buf: seq<char>, s: nat, fields: seq<string>)
    requires fields != [] && s + |Packed(fields)| < |buf| && NUL !in fields[0]
    requires buf[s..s + |Packed(fields)|] == Packed(fields)
    ensures var t := s + |fields[0]| + 1;
            && StringAt(buf, s, fields[0])
            && t + |Packed(fields[1..])| == s + |Packed(fields)|
            && buf[t..t + |Packed(fields[1..])|] == Packed(fields[1..])
  {
    var field, rest, all := fields[0], fields[1..], Packed(fields);
    assert all == field + [NUL] + Packed(rest);
    assert buf[s..s + |field|] == field by { assert all[..|field|] == field; }
    assert buf[s + |field|] == NUL by { assert all[|field|] == NUL; }
    assert all[|field| + 1..] == Packed(rest);
  }

  lemma {:induction false} PackedNone(fields: seq<string>)
    ensures Packed(fields) == "" <==> fields == []
  {
  }

  /** The state is the number in the last field with the property; the fields are scanned up to
      the first empty one. */
  lemma {:induction false} LastStateExactly(prop: string, fields: seq<string>, i: nat)
    requires i < |fields| && prop <= fields[i]
    requires forall j :: 0 <= j <= i ==> fields[j] != ""
    requires forall j :: i < j < |fields| && prop <= fields[j] ==>
               exists k :: i < k <= j && fields[k] == ""
    ensures LastState(prop, BeforeEmpty(fields)) == Some(Atoi(fields[i][|prop|..]))
  {
    BeforeEmptyExactly(fields);
    LastOf(prop, BeforeEmpty(fields), i);
  }

  /** And there is none if no field before the first empty one has the property. */
  lemma {:induction false} NoStateExactly(prop: string, fields: seq<string>)
    ensures LastState(prop, BeforeEmpty(fields)) == None
       <==> forall j :: 0 <= j < |fields| && prop <= fields[j] ==>
              exists k :: 0 <= k <= j && fields[k] == ""
  {
    BeforeEmptyExactly(fields);
    NoneOf(prop, BeforeEmpty(fields));
    var some := BeforeEmpty(fields);
    if i :| 0 <= i < |some| && prop <= some[i] {
      assert fields[i] == some[i] && forall k :: 0 <= k <= i ==> fields[k] == some[k];
    }
  }

  lemma {:induction false} NoneOf(prop: string, fields: seq<string>)
    ensures LastState(prop, fields) == None
       <==> forall j :: 0 <= j < |fields| ==> !(prop <= fields[j])
    decreases |fields|
  {
    if fields != [] && !(prop <= fields[|fields| - 1]) { NoneOf(prop, fields[..|fields| - 1]); }
  }

  lemma {:induction false} LastOf(prop: string, fields: seq<string>, i: nat)
    requires i < |fields| && prop <= fields[i]
    requires forall j :: i < j < |fields| ==> !(prop <= fields[j])
    ensures LastState(prop, fields) == Some(Atoi(fields[i][|prop|..]))
    decreases |fields|
  {
    if i < |fields| - 1 { LastOf(prop, fields[..|fields| - 1], i); }
  }

  lemma {:induction false} BeforeEmptyExactly(fields: seq<string>)
    ensures var some := BeforeEmpty(fields);
            && some <= fields && (forall i :: 0 <= i < |some| ==> some[i] != "")
            && (|some| < |fields| ==> fields[|some|] == "")
    decreases |fields|
  {
    if fields != [] && fields[0] != "" { BeforeEmptyExactly(fields[1..]); }
  }

  /** n in decimal digits */
  function Decimal(n: nat): string {
    (if n < 10 then "" else Decimal(n / 10)) + ['0' + (n % 10) as char]
  }

  /** A number is read back, whatever blanks and sign stand before it, up to the first character
      that is not a digit. */
  lemma {:induction false} AtoiReads(n: nat, rest: string)
    requires rest == "" || !('0' <= rest[0] <= '9')
    ensures Atoi(Decimal(n) + rest) == n
    ensures Atoi("-" + Decimal(n) + rest) == 0 - n
    ensures Atoi("+" + Decimal(n) + rest) == n
  {
    DigitsRead(n, rest);
    assert Decimal(n) + rest != "" && IsDigit((Decimal(n) + rest)[0]) by { FirstDigit(n); }
    assert ("-" + Decimal(n) + rest)[1..] == Decimal(n) + rest;
    assert ("+" + Decimal(n) + rest)[1..] == Decimal(n) + rest;
  }

  lemma {:induction false} BlanksSkipped(blank: char, s: string)
    requires blank in " \t\n\r"
    ensures Atoi([blank] + s) == Atoi(s)
  {
    assert ([blank] + s)[1..] == s;
  }

  lemma {:induction false} FirstDigit(n: nat)
    ensures Decimal(n) != "" && IsDigit(Decimal(n)[0])
  {
    if n >= 10 { FirstDigit(n / 10); }
  }

  lemma {:induction false} DigitsRead(n: nat, rest: string)
    ensures Digits(Decimal(n) + rest, 0) == Digits(rest, n)
  {
    var digit := ['0' + (n % 10) as char];
    assert (digit + rest)[1..] == rest;
    if n >= 10 {
      DigitsRead(n / 10, digit + rest);
      assert Decimal(n) + rest == Decimal(n / 10) + (digit + rest);
    } else {
      assert Decimal(n) + rest == digit + rest;
    }
  }

  /** An event for a device does what the last field of its property before the first empty one
      says, whatever else it carries. */
  lemma {:induction false} EventActs(device: Device, devices: seq<Device>, buf: seq<char>,
                                     fields: seq<string>)
    requires NUL !in device.node && forall f :: f in fields ==> NUL !in f
    requires FirstWithNode(devices, device.node) == Some(device)
    requires var event := Packed([device.node] + fields);
             && |event| <= CEC_BUFFER_SIZE - 2 && Received(buf, |event|)
             && buf[..|event|] == event
    ensures FirstWithNode(devices, Head(buf, 0)) == Some(device)
    ensures LastState(device.prop,
                      Scan(buf, |Packed([device.node] + fields)|, |Head(buf, 0)| + 1))
         == LastState(device.prop, BeforeEmpty(fields))
  {
    assert ([device.node] + fields)[1..] == fields;
    PackedAt(buf, 0, [device.node] + fields);
    HeadIs(buf, 0, device.node);
    ScanUnpacks(buf, |Packed([device.node] + fields)|, |device.node| + 1, fields);
  }
}
