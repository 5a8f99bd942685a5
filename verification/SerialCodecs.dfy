/** The codecs as the library runs them: decoders that update themselves octet by octet
    and encoders that fill a caller's array. */
module SerialCodecs {
  import opened Common
  import opened Framing

  /** The callback was asked `count` times: every answer but a final refusal was Ok. */
  ghost predicate Answered(answers: nat -> Status, count: nat, status: Status) {
    && (forall i: nat :: i < count - 1 ==> answers(i) == Ok)
    && if count == 0 then status == Ok else status == answers(count - 1)
  }

  class HdlcDecoder {
    const buffer: array<byte>
    const capacity: nat
    var length: nat
    var malformed: nat
    var oversized: nat
    var synchronized: bool
    var escaped: bool
    var discarding: bool

    ghost predicate Valid()
      reads this
    {
      length <= capacity <= buffer.Length
    }

    ghost function Model(): Decoder
      reads this, buffer
      requires Valid()
    {
      Decoder(capacity, buffer[..length], None, synchronized, escaped, discarding, malformed, oversized)
    }

    constructor (storage: array<byte>, storageCapacity: nat)
      requires storageCapacity <= storage.Length
      ensures Valid() && buffer == storage && Model() == Fresh(storageCapacity)
    {
      buffer, capacity := storage, storageCapacity;
      length, malformed, oversized := 0, 0, 0;
      synchronized, escaped, discarding := false, false, false;
    }

    /** A flag octet. */
    method CloseFrame() returns (frame: Option<Frame>)
      requires Valid()
      modifies this
      ensures Valid() && Result(Model(), frame) == Flush(Hdlc, old(Model()))
    {
      if escaped {
        malformed := malformed + 1;
        discarding := true;
      }
      frame := None;
      if synchronized && !discarding && length != 0 {
        frame := Some(Frame(None, buffer[..length]));
      }
      length, synchronized, escaped, discarding := 0, true, false, false;
    }

    /** Any other octet. */
    method TakeOctet(octet: byte)
      requires Valid()
      modifies this, buffer
      ensures Valid() && Model() == Octet(Hdlc, old(Model()), octet)
    {
      var b := octet;
      if !synchronized || discarding {
        return;
      }
      if escaped {
        b := Toggle(b);
        escaped := false;
      } else if b == 0x7d {
        escaped := true;
        return;
      }
      if length == capacity {
        oversized := oversized + 1;
        discarding, length, escaped := true, 0, false;
        return;
      }
      buffer[length] := b;
      length := length + 1;
      assert buffer[..length] == old(buffer[..length]) + [b];
    }

    method Take(b: byte) returns (frame: Option<Frame>)
      requires Valid()
      modifies this, buffer
      ensures Valid() && Result(Model(), frame) == Feed(Hdlc, old(Model()), b)
    {
      if b == 0x7e {
        frame := CloseFrame();
      } else {
        TakeOctet(b);
        frame := None;
      }
    }

    /** Feeds a chunk. The callback answers `answers(i)` for the i-th frame of this call;
        a refusal ends the call with `consumed` octets read. */
    method FeedChunk(input: seq<byte>, answers: nat -> Status)
      returns (status: Status, handed: seq<Frame>, consumed: nat)
      requires Valid()
      modifies this, buffer
      ensures Valid() && consumed <= |input|
      ensures Model() == After(Hdlc, old(Model()), input[..consumed])
      ensures handed == Frames(Hdlc, old(Model()), input[..consumed])
      ensures if capacity == 0 then status == InvalidArgument && consumed == 0
              else Answered(answers, |handed|, status) && (status == Ok ==> consumed == |input|)
    {
      hide After, Frames, Feed;
      ghost var start := Model();
      NothingFed(Hdlc, start);
      handed, consumed, status := [], 0, Ok;
      if capacity == 0 {
        return InvalidArgument, [], 0;
      }
      while consumed < |input| && status == Ok
        invariant Valid() && consumed <= |input|
        invariant Model() == After(Hdlc, start, input[..consumed])
        invariant handed == Frames(Hdlc, start, input[..consumed])
        invariant Answered(answers, |handed|, status)
        decreases |input| - consumed
      {
        var b := input[consumed];
        assert input[..consumed + 1] == input[..consumed] + [b];
        AfterSnoc(Hdlc, start, input[..consumed], b);
        consumed := consumed + 1;
        var frame := Take(b);
        if frame.Some? {
          status := answers(|handed|);
          handed := handed + [frame.value];
        }
      }
    }
  }

  class KissDecoder {
    const buffer: array<byte>
    const capacity: nat
    var length: nat
    var malformed: nat
    var oversized: nat
    var command: byte
    var port: byte
    var synchronized: bool
    var haveCommand: bool
    var escaped: bool
    var discarding: bool

    ghost predicate Valid()
      reads this
    {
      length <= capacity <= buffer.Length && command < 16 && port < 16
    }

    ghost function Model(): Decoder
      reads this, buffer
      requires Valid()
    {
      Decoder(capacity, buffer[..length], if haveCommand then Some(port * 16 + command) else None,
              synchronized, escaped, discarding, malformed, oversized)
    }

    constructor (storage: array<byte>, storageCapacity: nat)
      requires storageCapacity <= storage.Length
      ensures Valid() && buffer == storage && capacity == storageCapacity && Model() == Fresh(storageCapacity)
    {
      buffer, capacity := storage, storageCapacity;
      length, malformed, oversized, command, port := 0, 0, 0, 0, 0;
      synchronized, haveCommand, escaped, discarding := false, false, false, false;
    }

    method Reset()
      requires Valid()
      modifies this
      ensures Valid()
      ensures Model() == Fresh(capacity).(malformed := old(malformed), oversized := old(oversized))
    {
      length, synchronized, haveCommand, escaped, discarding := 0, false, false, false, false;
    }

    /** A flag octet. */
    method CloseFrame() returns (frame: Option<Frame>)
      requires Valid()
      modifies this
      ensures Valid() && Result(Model(), frame) == Flush(Kiss, old(Model()))
    {
      if escaped {
        malformed := malformed + 1;
        discarding := true;
      }
      frame := None;
      if synchronized && haveCommand && !discarding {
        frame := Some(Frame(Some(port * 16 + command), buffer[..length]));
      }
      length, synchronized, haveCommand, escaped, discarding := 0, true, false, false, false;
    }

    /** Any other octet. */
    method TakeOctet(octet: byte)
      requires Valid()
      modifies this, buffer
      ensures Valid() && Model() == Octet(Kiss, old(Model()), octet)
    {
      var b := octet;
      if !synchronized || discarding {
        return;
      }
      if !haveCommand {
        port, command, haveCommand := b / 16, b % 16, true;
        return;
      }
      if escaped {
        if b == 0xdc {
          b := 0xc0;
        } else if b == 0xdd {
          b := 0xdb;
        } else {
          malformed := malformed + 1;
          discarding, escaped, length := true, false, 0;
          return;
        }
        escaped := false;
      } else if b == 0xdb {
        escaped := true;
        return;
      }
      if length == capacity {
        oversized := oversized + 1;
        discarding, length, escaped := true, 0, false;
        return;
      }
      buffer[length] := b;
      length := length + 1;
      assert buffer[..length] == old(buffer[..length]) + [b];
    }

    /** One octet of input, and the frame it completed. */
    method Take(b: byte) returns (frame: Option<Frame>)
      requires Valid()
      modifies this, buffer
      ensures Valid() && Result(Model(), frame) == Feed(Kiss, old(Model()), b)
    {
      if b == 0xc0 {
        frame := CloseFrame();
      } else {
        TakeOctet(b);
        frame := None;
      }
    }

    /** As for HDLC; frames carry their port and command. */
    method FeedChunk(input: seq<byte>, answers: nat -> Status)
      returns (status: Status, handed: seq<Frame>, consumed: nat)
      requires Valid()
      modifies this, buffer
      ensures Valid() && consumed <= |input|
      ensures Model() == After(Kiss, old(Model()), input[..consumed])
      ensures handed == Frames(Kiss, old(Model()), input[..consumed])
      ensures if capacity == 0 then status == InvalidArgument && consumed == 0
              else Answered(answers, |handed|, status) && (status == Ok ==> consumed == |input|)
    {
      hide After, Frames, Feed;
      ghost var start := Model();
      NothingFed(Kiss, start);
      handed, consumed, status := [], 0, Ok;
      if capacity == 0 {
        return InvalidArgument, [], 0;
      }
      while consumed < |input| && status == Ok
        invariant Valid() && consumed <= |input|
        invariant Model() == After(Kiss, start, input[..consumed])
        invariant handed == Frames(Kiss, start, input[..consumed])
        invariant Answered(answers, |handed|, status)
        decreases |input| - consumed
      {
        var b := input[consumed];
        assert input[..consumed + 1] == input[..consumed] + [b];
        AfterSnoc(Kiss, start, input[..consumed], b);
        consumed := consumed + 1;
        var frame := Take(b);
        if frame.Some? {
          status := answers(|handed|);
          handed := handed + [frame.value];
        }
      }
    }
  }

  // ---------------------------------------------------------------- encoders

  lemma {:induction false} StuffGrows(k: Kind, data: seq<byte>, i: nat)
    requires i <= |data|
    ensures |Stuff(k, data[..i])| <= |Stuff(k, data)|
  {
    if i == |data| {
      assert data[..i] == data;
    } else {
      StuffGrows(k, data[..|data| - 1], i);
      assert data[..|data| - 1][..i] == data[..i];
    }
  }

  /** Appends one octet, escaped when it must be; fails when it does not fit. */
  method AppendStuffed(k: Kind, b: byte, output: array<byte>, position: nat) returns (ok: bool, next: nat)
    requires position <= output.Length
    modifies output
    ensures ok <==> position + |StuffByte(k, b)| <= output.Length
    ensures next == position + if ok then |StuffByte(k, b)| else 0
    ensures ok ==> output[..next] == old(output[..position]) + StuffByte(k, b)
  {
    if b == Flag(k) || b == Escape(k) {
      if output.Length - position < 2 {
        return false, position;
      }
      output[position] := Escape(k);
      output[position + 1] := Cover(k, b);
      next := position + 2;
    } else {
      if position >= output.Length {
        return false, position;
      }
      output[position] := b;
      next := position + 1;
    }
    assert output[..next] == output[..position] + StuffByte(k, b);
    assert output[..position] == old(output[..position]);
    ok := true;
  }

  /** The common tail of both encoders: stuffed data and the closing flag after `start`
      octets already written. */
  method AppendBody(k: Kind, data: seq<byte>, output: array<byte>, start: nat) returns (status: Status, length: nat)
    requires start <= output.Length
    modifies output
    ensures status == Ok <==> start + |Stuff(k, data)| + 1 <= output.Length
    ensures status == Ok ==> length == start + |Stuff(k, data)| + 1
    ensures status == Ok ==> output[..length] == old(output[..start]) + Stuff(k, data) + [Flag(k)]
    ensures status != Ok ==> status == Overflow && length == 0
  {
    var position := start;
    assert output[..start] == old(output[..start]) + Stuff(k, []);
    for i := 0 to |data|
      invariant start <= position <= output.Length
      invariant position == start + |Stuff(k, data[..i])|
      invariant output[..position] == old(output[..start]) + Stuff(k, data[..i])
    {
      var ok;
      assert data[..i + 1][..i] == data[..i];
      ok, position := AppendStuffed(k, data[i], output, position);
      if !ok {
        StuffGrows(k, data, i + 1);
        return Overflow, 0;
      }
    }
    assert data[..|data|] == data;
    if position >= output.Length {
      return Overflow, 0;
    }
    output[position] := Flag(k);
    assert output[..position + 1] == output[..position] + [Flag(k)];
    return Ok, position + 1;
  }

  /** Succeeds exactly when the exact encoding fits. */
  method EncodeHdlc(frame: seq<byte>, output: array<byte>) returns (status: Status, length: nat)
    modifies output
    ensures status == Ok <==> |Encode(Hdlc, Frame(None, frame))| <= output.Length
    ensures status == Ok ==> length <= output.Length && output[..length] == Encode(Hdlc, Frame(None, frame))
    ensures status != Ok ==> status == Overflow && length == 0
  {
    if output.Length < 2 {
      return Overflow, 0;
    }
    output[0] := Flag(Hdlc);
    status, length := AppendBody(Hdlc, frame, output, 1);
  }

  /** Bad port or command: refused. Otherwise succeeds exactly when the encoding fits. */
  method EncodeKiss(port: byte, command: byte, payload: seq<byte>, output: array<byte>)
    returns (status: Status, length: nat)
    modifies output
    ensures port > 15 || command > 15 <==> status == InvalidArgument
    ensures port <= 15 && command <= 15 ==>
              && (status == Ok <==> |Encode(Kiss, Frame(Some(port * 16 + command), payload))| <= output.Length)
              && (status == Ok ==> length <= output.Length)
              && (status == Ok ==> output[..length] == Encode(Kiss, Frame(Some(port * 16 + command), payload)))
    ensures status != Ok ==> length == 0
    ensures status in {Ok, InvalidArgument, Overflow}
  {
    if port > 15 || command > 15 {
      return InvalidArgument, 0;
    }
    if output.Length < 3 {
      return Overflow, 0;
    }
    output[0] := Flag(Kiss);
    output[1] := port * 16 + command;
    status, length := AppendBody(Kiss, payload, output, 2);
    ghost var f := Frame(Some(port * 16 + command), payload);
    assert Encode(Kiss, f) == [Flag(Kiss), port * 16 + command] + Stuff(Kiss, payload) + [Flag(Kiss)];
  }
}
