/** The bridge as Home Assistant sees it: the status read, the export of one command, the hex identity. */
module Bridge {
  import opened Bytes
  import opened RegistryModel
  import opened Refinement
  import opened Runs

  // ---- The identity in hex ------------------------------------------------------------------

  function Digit(n: nat): char
    requires n < 16
  {
    "0123456789abcdef"[n]
  }

  function Nibble(c: char): Option<nat> {
    if '0' <= c <= '9' then Some(c as int - '0' as int)
    else if 'a' <= c <= 'f' then Some(c as int - 'a' as int + 10)
    else if 'A' <= c <= 'F' then Some(c as int - 'A' as int + 10)
    else None
  }

  function HexOf(b: seq<byte>): (text: string)
    ensures |text| == 2 * |b|
  {
    if b == [] then "" else [Digit(b[0] / 16), Digit(b[0] % 16)] + HexOf(b[1..])
  }

  /** One byte of hex text, in either case. */
  function HexByte(hi: char, lo: char): Option<byte> {
    match (Nibble(hi), Nibble(lo))
    case (Some(h), Some(l)) => if h < 16 && l < 16 then Some(16 * h + l) else None
    case _ => None
  }

  function ParseHex(text: string): (b: Option<seq<byte>>)
    requires |text| % 2 == 0
    ensures b.Some? ==> 2 * |b.value| == |text|
  {
    if text == "" then Some([])
    else
      match (HexByte(text[0], text[1]), ParseHex(text[2..]))
      case (Some(first), Some(rest)) => Some([first] + rest)
      case _ => None
  }

  /** `parse_bridge_id`: exactly 32 hex characters, or nothing. */
  function BridgeIdOf(text: string): Option<BridgeId> {
    if |text| != 32 then None
    else
      match ParseHex(text)
      case None => None
      case Some(b) => Some(b)
  }

  lemma {:induction false} ParseHexAppend(text: string, hi: char, lo: char)
    requires |text| % 2 == 0
    ensures ParseHex(text + [hi, lo]) ==
            if ParseHex(text).Some? && HexByte(hi, lo).Some? then Some(ParseHex(text).value + [HexByte(hi, lo).value])
            else None
  {
    var whole := text + [hi, lo];
    if text == "" {
      assert whole == [hi, lo] && whole[2..] == "";
      if HexByte(hi, lo).Some? {
        var only: byte := HexByte(hi, lo).value;
        assert [only] + [] == [] + [only];
      }
    } else {
      assert whole[2..] == text[2..] + [hi, lo] && whole[0] == text[0] && whole[1] == text[1];
      ParseHexAppend(text[2..], hi, lo);
      if ParseHex(text).Some? && HexByte(hi, lo).Some? {
        var first, rest, last := HexByte(text[0], text[1]).value, ParseHex(text[2..]).value, HexByte(hi, lo).value;
        assert [first] + (rest + [last]) == [first] + rest + [last];
      }
    }
  }

  lemma {:induction false} ParseHexPrefix(text: string, n: nat)
    requires |text| % 2 == 0 && n % 2 == 0 && n <= |text| && ParseHex(text).Some?
    ensures ParseHex(text[..n]).Some?
    decreases |text| - n
  {
    if n < |text| {
      ParseHexPrefix(text, n + 2);
      assert text[..n + 2] == text[..n] + [text[n], text[n + 1]];
      ParseHexAppend(text[..n], text[n], text[n + 1]);
    } else {
      assert text[..n] == text;
    }
  }

  /** The firmware's parser, byte by byte. */
  method ParseBridgeId(text: string) returns (id: Option<BridgeId>)
    ensures id == BridgeIdOf(text)
  {
    if |text| != 32 {
      return None;
    }
    var out: seq<byte> := [];
    for i := 0 to 16
      invariant |out| == i && ParseHex(text[..2 * i]) == Some(out)
    {
      var hi, lo := text[2 * i], text[2 * i + 1];
      assert text[..2 * (i + 1)] == text[..2 * i] + [hi, lo];
      ParseHexAppend(text[..2 * i], hi, lo);
      var next := HexByte(hi, lo);
      if next == None {
        if ParseHex(text).Some? {
          ParseHexPrefix(text, 2 * (i + 1));
        }
        return None;
      }
      out := out + [next.value];
    }
    assert text[..32] == text;
    return Some(out);
  }

  function LowerChar(c: char): char {
    if 'A' <= c <= 'F' then (c as int - 'A' as int + 'a' as int) as char else c
  }

  function Lower(text: string): (t: string)
    ensures |t| == |text|
  {
    seq(|text|, i requires 0 <= i < |text| => LowerChar(text[i]))
  }

  lemma {:induction false} HexByteOfDigits(b: byte)
    ensures HexByte(Digit(b / 16), Digit(b % 16)) == Some(b)
  {
    DigitNibble(b / 16);
    DigitNibble(b % 16);
  }

  lemma {:induction false} DigitNibble(n: nat)
    requires n < 16
    ensures Nibble(Digit(n)) == Some(n)
  {
  }

  lemma {:induction false} DigitsOfHexByte(hi: char, lo: char)
    requires HexByte(hi, lo).Some?
    ensures var b := HexByte(hi, lo).value;
            Digit(b / 16) == LowerChar(hi) && Digit(b % 16) == LowerChar(lo)
  {
    hide Nibble, Digit, LowerChar;
    NibbleDigit(hi);
    NibbleDigit(lo);
    Halves(Nibble(hi).value, Nibble(lo).value);
  }

  lemma {:induction false} Halves(h: nat, l: nat)
    requires h < 16 && l < 16
    ensures (16 * h + l) / 16 == h && (16 * h + l) % 16 == l
  {
  }

  lemma {:induction false} NibbleDigit(c: char)
    requires Nibble(c).Some?
    ensures Nibble(c).value < 16 && Digit(Nibble(c).value) == LowerChar(c)
  {
  }

  /** Every identity survives being shown and parsed. */
  lemma {:induction false} HexRoundTrip(b: seq<byte>)
    ensures ParseHex(HexOf(b)) == Some(b)
  {
    hide HexByte, Digit;
    if b != [] {
      HexRoundTrip(b[1..]);
      HexByteOfDigits(b[0]);
      assert HexOf(b)[2..] == HexOf(b[1..]);
      assert [b[0]] + b[1..] == b;
    }
  }

  /** What parses is shown again in lower case: only case is forgotten. */
  lemma {:induction false} HexCanonical(text: string)
    requires |text| % 2 == 0 && ParseHex(text).Some?
    ensures HexOf(ParseHex(text).value) == Lower(text)
  {
    hide HexByte, Digit, LowerChar;
    if text != "" {
      HexCanonical(text[2..]);
      DigitsOfHexByte(text[0], text[1]);
      assert ParseHex(text).value[1..] == ParseHex(text[2..]).value;
      assert Lower(text) == [LowerChar(text[0]), LowerChar(text[1])] + Lower(text[2..]);
    } else {
      assert Lower(text) == "";
    }
  }

  predicate HexChar(c: char) {
    '0' <= c <= '9' || 'a' <= c <= 'f' || 'A' <= c <= 'F'
  }

  /** Text parses exactly when every character is a hex digit, of either case, and case makes no difference. */
  lemma {:induction false} HexAccepted(text: string)
    requires |text| % 2 == 0
    ensures ParseHex(text).Some? <==> forall i :: 0 <= i < |text| ==> HexChar(text[i])
    ensures ParseHex(Lower(text)) == ParseHex(text)
  {
    hide HexByte, LowerChar, HexChar;
    if text == "" {
      assert Lower(text) == "";
    } else {
      HexAccepted(text[2..]);
      HexPair(text[0], text[1]);
      assert Lower(text)[2..] == Lower(text[2..]);
      assert forall i :: 2 <= i < |text| ==> text[i] == text[2..][i - 2];
    }
  }

  lemma {:induction false} HexPair(hi: char, lo: char)
    ensures HexByte(hi, lo).Some? <==> HexChar(hi) && HexChar(lo)
    ensures HexByte(LowerChar(hi), LowerChar(lo)) == HexByte(hi, lo)
  {
  }

  lemma {:induction false} HexInjective(a: seq<byte>, b: seq<byte>)
    requires HexOf(a) == HexOf(b)
    ensures a == b
  {
    HexRoundTrip(a);
    HexRoundTrip(b);
  }

  // ---- Status and export --------------------------------------------------------------------

  /** The occupied slots, in slot order: what `entries()` walks. */
  function ListedUpTo(slots: seq<Command>, n: nat): (listed: seq<Command>)
    requires n <= |slots|
    ensures |listed| == Occupancy(slots, n)
  {
    if n == 0 then []
    else ListedUpTo(slots, n - 1) + (if slots[n - 1].Occupied() then [slots[n - 1]] else [])
  }

  function Listed(slots: seq<Command>): (listed: seq<Command>)
    ensures |listed| == Count(slots)
  {
    ListedUpTo(slots, |slots|)
  }

  function Ids(commands: seq<Command>): (ids: seq<u32>)
    ensures |ids| == |commands|
    ensures forall i :: 0 <= i < |commands| ==> ids[i] == commands[i].id
  {
    seq(|commands|, i requires 0 <= i < |commands| => commands[i].id)
  }

  function Names(commands: seq<Command>): (names: seq<Name>)
    ensures |names| == |commands|
    ensures forall i :: 0 <= i < |commands| ==> names[i] == commands[i].name
  {
    seq(|commands|, i requires 0 <= i < |commands| => commands[i].name)
  }

  /** The status read. `listing` and `names` are the two columns of its command table. */
  datatype Status = Status(bridgeId: string, revision: u32, nextId: u32, restoreIncomplete: bool, readOnly: bool,
                           maxCommands: nat, maxPulses: nat, listing: seq<u32>, names: seq<Name>)
  {
    function Count(): nat { |listing| }
  }

  function StatusOf(cfg: Config, ram: Ram): Status {
    Status(HexOf(ram.reg.bridgeId), ram.reg.revision, ram.reg.nextId, ram.reg.restoreState != 0, ram.readOnly,
           cfg.maxCommands, cfg.maxPulses, Ids(Listed(ram.reg.slots)), Names(Listed(ram.reg.slots)))
  }

  function ExportById(ram: Ram, id: u32): Option<Command> {
    var slot := First(ram.reg.slots, ById(id));
    if slot < 0 then None else Some(ram.reg.slots[slot])
  }

  lemma {:induction false} ListedMembers(slots: seq<Command>, n: nat)
    requires n <= |slots|
    ensures forall c :: c in ListedUpTo(slots, n) <==> exists i :: 0 <= i < n && slots[i].Occupied() && slots[i] == c
  {
    if n != 0 {
      ListedMembers(slots, n - 1);
      forall c
        ensures c in ListedUpTo(slots, n) <==> exists i :: 0 <= i < n && slots[i].Occupied() && slots[i] == c
      {
        if c in ListedUpTo(slots, n - 1) {
          var i :| 0 <= i < n - 1 && slots[i].Occupied() && slots[i] == c;
        } else if slots[n - 1].Occupied() && slots[n - 1] == c {
          assert c in [slots[n - 1]];
        }
      }
    }
  }

  predicate HoldsUnder(slots: seq<Command>, id: u32, name: Name) {
    exists i :: 0 <= i < |slots| && slots[i].Occupied() && slots[i].id == id && slots[i].name == name
  }

  /** Each line of the listing is one held command's id and name. */
  lemma {:induction false} ListingLines(cfg: Config, ram: Ram, k: nat)
    requires k < |StatusOf(cfg, ram).listing|
    ensures |StatusOf(cfg, ram).names| == |StatusOf(cfg, ram).listing|
    ensures HoldsUnder(ram.reg.slots, StatusOf(cfg, ram).listing[k], StatusOf(cfg, ram).names[k])
  {
    hide HexOf, ListedUpTo;
    var slots, listed := ram.reg.slots, Listed(ram.reg.slots);
    ListedMembers(slots, |slots|);
    assert listed[k] in listed;
    var i :| 0 <= i < |slots| && slots[i].Occupied() && slots[i] == listed[k];
  }

  /** The listing names exactly the ids the registry holds. */
  lemma {:induction false} ListingIsHeld(cfg: Config, ram: Ram)
    ensures forall id :: id in StatusOf(cfg, ram).listing <==> id in Held(ram.reg)
  {
    var slots, listed := ram.reg.slots, Listed(ram.reg.slots);
    ListedMembers(slots, |slots|);
    forall id | id in Held(ram.reg)
      ensures id in Ids(listed)
    {
      var i :| 0 <= i < |slots| && slots[i].Occupied() && slots[i].id == id;
      assert slots[i] in listed;
      var k :| 0 <= k < |listed| && listed[k] == slots[i];
      assert Ids(listed)[k] == id;
    }
    forall id | id in Ids(listed)
      ensures id in Held(ram.reg)
    {
      var k :| 0 <= k < |listed| && Ids(listed)[k] == id;
      assert listed[k] in listed;
    }
  }

  /** Asking for a listed id returns the listed command. */
  lemma {:induction false} ExportOfListed(slots: seq<Command>, k: nat)
    requires Distinct(slots) && k < |Listed(slots)|
    ensures First(slots, ById(Listed(slots)[k].id)) >= 0
    ensures slots[First(slots, ById(Listed(slots)[k].id))] == Listed(slots)[k]
  {
    var c := Listed(slots)[k];
    ListedMembers(slots, |slots|);
    assert c in Listed(slots);
    var i :| 0 <= i < |slots| && slots[i].Occupied() && slots[i] == c;
    assert Matches(ById(c.id), slots[i]);
  }
}
