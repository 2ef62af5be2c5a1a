/**
 * The vendor-specific event the controller emits when it hits an assertion: an H:4 event packet
 * (Bluetooth Core Specification, Vol 4 Part E section 5.4.4) that names the source file and the line.
 */
module DebugEvent {
  import opened Bytes
  import opened Options

  const H4_EVT: Byte := 0x04
  const VENDOR: Byte := 0xFF
  const ASSERT_TAG: Byte := 0xAA
  const SLASH: Byte := 0x2F

  /** `name` is what follows the last '/' of `path`, or all of it. */
  ghost predicate IsBasename(path: seq<Byte>, name: seq<Byte>) {
    && |name| <= |path| && path[|path| - |name|..] == name
    && SLASH !in name
    && (|name| < |path| ==> path[|path| - |name| - 1] == SLASH)
  }

  lemma BasenameIsUnique(path: seq<Byte>, a: seq<Byte>, b: seq<Byte>)
    requires IsBasename(path, a) && IsBasename(path, b)
    ensures a == b
  {
  }

  /** The octets sent for a file called `name`; an empty name is sent without its terminator. */
  ghost function Event(name: seq<Byte>, line: int): seq<Byte>
    requires 0 <= line < 0x1_0000_0000
  {
    [H4_EVT, VENDOR, (1 + |name| + 1 + 4) % 0x100, ASSERT_TAG]
    + (if name == [] then [] else name + [0])
    + LittleEndian32(line)
  }

  /** The first loop of `bt_ctlr_assert_handle`: where the last path component starts. */
  method FindBasename(path: seq<Byte>) returns (pos: nat)
    ensures pos <= |path| && IsBasename(path, path[pos..])
  {
    var len := 0;
    pos := 0;
    while len < |path|
      invariant pos <= len <= |path|
      invariant pos == 0 || path[pos - 1] == SLASH
      invariant SLASH !in path[pos..len]
    {
      if path[len] == SLASH {
        pos := len + 1;
      }
      len := len + 1;
    }
    assert path[pos..len] == path[pos..];
  }

  /** `bt_ctlr_assert_handle`, up to its final endless loop; `out` is what it polls out. */
  method BtCtlrAssertHandle(file: Option<seq<Byte>>, line: int) returns (out: seq<Byte>)
    requires 0 <= line < 0x1_0000_0000
    requires file.Some? ==> CString(file.value)
    ensures file.Some? ==> exists name :: IsBasename(file.value, name) && out == Event(name, line)
    ensures file.None? ==> out == Event([], line)
  {
    var path := [];
    if file.Some? {
      var pos := FindBasename(file.value);
      path := file.value[pos..];
    }
    var head := [H4_EVT, VENDOR, (1 + |path| + 1 + 4) % 0x100, ASSERT_TAG];
    out := head;
    if |path| != 0 {
      var i := 0;
      while i < |path|
        invariant 0 <= i <= |path|
        invariant out == head + path[..i]
      {
        out := out + [path[i]];
        i := i + 1;
      }
      out := out + [0];
      assert path[..i] + [0] == path + [0];
    }
    assert out == head + (if path == [] then [] else path + [0]);
    out := out + LittleEndian32(line);
    assert out == Event(path, line);
  }

  /** One H:4 event packet: type, event code, parameter length, and exactly that many parameters. */
  ghost predicate WellFormedEvent(packet: seq<Byte>) {
    3 <= |packet| && packet[0] == H4_EVT && packet[2] == |packet| - 3
  }

  /** What a host reads back: the name before the terminator and the line after it. */
  ghost function Decode(packet: seq<Byte>): Option<(seq<Byte>, int)> {
    if !WellFormedEvent(packet) || |packet| < 9 || packet[1] != VENDOR || packet[3] != ASSERT_TAG
       || packet[|packet| - 5] != 0 then None
    else Some((packet[4..|packet| - 5], FromLittleEndian32(packet[|packet| - 4..])))
  }

  /**
   * The length octet is right exactly for names of 1 to 249 octets: an empty name (no file, or a path that ends
   * in '/') is announced with a terminator that is not sent, and a longer name overflows the octet.
   */
  lemma EventIsWellFormedIff(name: seq<Byte>, line: int)
    requires 0 <= line < 0x1_0000_0000
    ensures WellFormedEvent(Event(name, line)) <==> 1 <= |name| <= 249
  {
    var body := if name == [] then [] else name + [0];
    assert |Event(name, line)| == 4 + |body| + 4;
    assert Event(name, line)[2] == (|name| + 6) % 0x100;
    if 249 < |name| {
      assert (|name| + 6) % 0x100 < 0x100 <= |name| + 6;
    }
  }

  /** Octet by octet, for every name and line. */
  lemma EventOctets(name: seq<Byte>, line: int)
    requires 0 <= line < 0x1_0000_0000
    ensures
      var o := Event(name, line);
      var n := |o|;
      && n == (if name == [] then 8 else 9 + |name|)
      && o[0] == 0x04 && o[1] == 0xFF && o[2] == (6 + |name|) % 0x100 && o[3] == 0xAA
      && o[4..n - 4] == (if name == [] then [] else name + [0])
      && line == (o[n - 4] as int) + (o[n - 3] as int) * 0x100 + (o[n - 2] as int) * 0x1_0000
                 + (o[n - 1] as int) * 0x100_0000
  {
    var tail := LittleEndian32(line);
    var body := if name == [] then [] else name + [0];
    var head := [H4_EVT, VENDOR, (6 + |name|) % 0x100, ASSERT_TAG];
    assert Event(name, line) == head + body + tail;
    LittleEndian32Octets(line);
    hide LittleEndian32, Event;
    assert (head + body + tail)[4..4 + |body|] == body;
  }

  lemma DecodeEvent(name: seq<Byte>, line: int)
    requires 0 <= line < 0x1_0000_0000
    requires 1 <= |name| <= 249
    ensures Decode(Event(name, line)) == Some((name, line))
  {
    var packet := Event(name, line);
    EventIsWellFormedIff(name, line);
    LittleEndian32RoundTrip(line);
    assert packet == [H4_EVT, VENDOR, |name| + 6, ASSERT_TAG] + name + [0] + LittleEndian32(line);
    assert packet[4..|packet| - 5] == name;
    assert packet[|packet| - 4..] == LittleEndian32(line);
  }
}
