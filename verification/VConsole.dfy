/**
 The VConsole wire format: framing of commands, reading chunks from a byte stream, and the CHAN message.
 The stream delivers all the bytes it has; the host stores the low byte of a number first.
 */
module VConsole {
  import opened Wrappers

  type byte = n: nat | n < 256

  const HEADER_SIZE := 12

  /** `ntohs` of the two bytes at `pos` */
  function Half(bytes: seq<byte>, pos: nat): (n: nat)
    requires pos + 2 <= |bytes|
    ensures n < 0x1_0000
  {
    var hi: nat, lo: nat := bytes[pos], bytes[pos + 1];
    256 * hi + lo
  }

  function ToHalf(n: nat): (bytes: seq<byte>)
    ensures |bytes| == 2
  {
    [n / 256 % 256, n % 256]
  }

  type UInt32 = n: nat | n < 0x1_0000_0000

  function FromBytes(a: byte, b: byte, c: byte, d: byte): UInt32 {
    var high: nat, upper: nat, lower: nat, low: nat := a, b, c, d;
    ((high * 256 + upper) * 256 + lower) * 256 + low
  }

  /** `ntohl` of the four bytes at `pos` */
  function Word(bytes: seq<byte>, pos: nat): UInt32
    requires pos + 4 <= |bytes|
  {
    FromBytes(bytes[pos], bytes[pos + 1], bytes[pos + 2], bytes[pos + 3])
  }

  function ToWord(n: UInt32): (bytes: seq<byte>)
    ensures |bytes| == 4
  {
    [n / 0x100_0000, n / 0x1_0000 % 256, n / 256 % 256, n % 256]
  }

  lemma WordRoundTrip(n: UInt32)
    ensures Word(ToWord(n), 0) == n
  {
    var lower, upper := n / 256, n / 0x1_0000;
    assert lower / 256 == upper && upper / 256 == n / 0x100_0000;
    assert n == lower * 256 + n % 256;
    assert lower == upper * 256 + lower % 256;
    assert upper == upper / 256 * 256 + upper % 256;
  }

  // ---------------------------------------------------------------- commands

  const MAX_COMMAND := 65535 - HEADER_SIZE - 1

  /** `substr(0, maxCommandLength)` */
  function Cut(command: seq<byte>): (r: seq<byte>)
    ensures |r| <= MAX_COMMAND
  {
    if |command| <= MAX_COMMAND then command else command[..MAX_COMMAND]
  }

  function FrameSize(command: seq<byte>): (n: nat)
    ensures 13 <= n <= 65535
  {
    HEADER_SIZE + |Cut(command)| + 1
  }

  /** "CMND", the version in four bytes, the size of the whole frame, the handle, the text and a NUL. */
  function CommandFrame(command: seq<byte>): (frame: seq<byte>)
    ensures |frame| == FrameSize(command)
  {
    [67, 77, 78, 68] + [0, 0xD4, 0, 0] + ToHalf(FrameSize(command)) + [0, 0] + Cut(command) + [0]
  }

  lemma FrameIsLabelled(command: seq<byte>)
    ensures Half(CommandFrame(command), 8) == |CommandFrame(command)|
  {
    assert CommandFrame(command)[8..10] == ToHalf(FrameSize(command));
  }

  /** The frame byte by byte. */
  lemma PatchedFrame(command: seq<byte>, payload: seq<byte>)
    requires |payload| == FrameSize(command)
    requires payload[..8] == [67, 77, 78, 68, 0, 0xD4, 0, 0]
    requires payload[8] == FrameSize(command) / 256 % 256 && payload[9] == FrameSize(command) % 256
    requires payload[10..] == [0, 0] + Cut(command) + [0]
    ensures payload == CommandFrame(command)
  {
    assert payload == payload[..8] + [payload[8], payload[9]] + payload[10..];
    var size := ToHalf(FrameSize(command));
    assert size + ([0, 0] + Cut(command) + [0]) == size + [0, 0] + Cut(command) + [0];
  }

  method CreateCommandPayload(command: seq<byte>) returns (payload: seq<byte>)
    ensures payload == CommandFrame(command)
    ensures payload[..8] == [67, 77, 78, 68, 0, 0xD4, 0, 0] && payload[10..12] == [0, 0]
    ensures payload[12..|payload| - 1] == (if |command| <= 65522 then command else command[..65522])
    ensures payload[|payload| - 1] == 0
    ensures Half(payload, 8) == |payload| && 13 <= |payload| <= 65535
  {
    payload := [67, 77, 78, 68, 0x00, 0xD4, 0x00, 0x00, 0x00, 0x18, 0x00, 0x00];
    var maxCommandLength := 65535 - |payload| - 1;
    var truncatedCommand := if |command| <= maxCommandLength then command else command[..maxCommandLength];
    payload := payload + truncatedCommand;
    payload := payload + [0x00];
    var totalLength := |payload| % 65536;
    payload := payload[8 := totalLength / 256 % 256];
    payload := payload[9 := totalLength % 256];
    PatchedFrame(command, payload);
    FrameIsLabelled(command);
  }

  // ---------------------------------------------------------------- reading

  datatype ReadOutcome =
    | Chunk(bytes: seq<byte>)
    | Short
    | Overrun  // a length field below the header size: the source then writes past its buffer

  /** What the chunk looks like in memory: the type as sent, the three numbers in host order. */
  function HostOrder(frame: seq<byte>): (chunk: seq<byte>)
    requires |frame| >= HEADER_SIZE
    ensures |chunk| == |frame|
  {
    frame[..4] + [frame[7], frame[6], frame[5], frame[4]] + [frame[9], frame[8]] + [frame[11], frame[10]]
    + frame[HEADER_SIZE..]
  }

  /** One read: what it yields, and the bytes left in the stream. */
  function Read(stream: seq<byte>): (r: (ReadOutcome, seq<byte>))
    ensures |r.1| <= |stream|
    ensures r.0.Chunk? ==> HEADER_SIZE <= |r.0.bytes| <= 65535 && |r.0.bytes| + |r.1| == |stream|
  {
    if |stream| < HEADER_SIZE then (Short, [])
    else
      var length := Half(stream, 8);
      if length < HEADER_SIZE then (Overrun, stream[HEADER_SIZE..])
      else if |stream| < length then (Short, [])
      else (Chunk(HostOrder(stream[..length])), stream[length..])
  }

  /** All the chunks that repeated reads yield before the first one that fails. */
  function ReadAll(stream: seq<byte>): seq<seq<byte>>
    decreases |stream|
  {
    var (outcome, rest) := Read(stream);
    match outcome
    case Chunk(bytes) => [bytes] + ReadAll(rest)
    case _ => []
  }

  /** Commands sent one after the other. */
  function Stream(commands: seq<seq<byte>>): seq<byte> {
    if commands == [] then [] else CommandFrame(commands[0]) + Stream(commands[1..])
  }

  function Chunks(commands: seq<seq<byte>>): seq<seq<byte>> {
    if commands == [] then [] else [HostOrder(CommandFrame(commands[0]))] + Chunks(commands[1..])
  }

  /** A message whose length field is right. */
  predicate IsFrame(frame: seq<byte>) {
    |frame| >= HEADER_SIZE && Half(frame, 8) == |frame|
  }

  lemma ReadOneFrame(frame: seq<byte>, rest: seq<byte>)
    requires IsFrame(frame)
    ensures Read(frame + rest) == (Chunk(HostOrder(frame)), rest)
  {
    var stream := frame + rest;
    assert Half(stream, 8) == Half(frame, 8);
    assert stream[..|frame|] == frame && stream[|frame|..] == rest;
  }

  lemma PartOfAFrame(command: seq<byte>, part: seq<byte>)
    requires |part| < FrameSize(command) && part == CommandFrame(command)[..|part|]
    ensures Read(part) == (Short, [])
  {
    FrameIsLabelled(command);
    if |part| >= HEADER_SIZE {
      assert Half(part, 8) == Half(CommandFrame(command), 8);
    }
  }

  /** How many of the commands have arrived in full with the first `k` bytes. */
  function Arrived(commands: seq<seq<byte>>, k: nat): (n: nat)
    ensures n <= |commands|
  {
    if commands == [] || k < FrameSize(commands[0]) then 0
    else 1 + Arrived(commands[1..], k - FrameSize(commands[0]))
  }

  /** Reading any beginning of the stream yields the chunks of the commands that are complete in it, in
      order, and nothing else. */
  lemma {:induction false} ReadingABeginning(commands: seq<seq<byte>>, k: nat)
    requires k <= |Stream(commands)|
    ensures ReadAll(Stream(commands)[..k]) == Chunks(commands[..Arrived(commands, k)])
  {
    if commands != [] {
      var frame, rest := CommandFrame(commands[0]), Stream(commands[1..]);
      var part := Stream(commands)[..k];
      if k < |frame| {
        assert part == frame[..k];
        PartOfAFrame(commands[0], part);
        assert commands[..0] == [];
      } else {
        assert part == frame + rest[..k - |frame|];
        FrameIsLabelled(commands[0]);
        ReadOneFrame(frame, rest[..k - |frame|]);
        ReadingABeginning(commands[1..], k - |frame|);
        var n := Arrived(commands, k);
        assert commands[..n][1..] == commands[1..][..n - 1] && commands[..n][0] == commands[0];
      }
    }
  }

  lemma {:induction false} AllArrive(commands: seq<seq<byte>>)
    ensures Arrived(commands, |Stream(commands)|) == |commands|
  {
    if commands != [] {
      AllArrive(commands[1..]);
    }
  }

  /** The text that a chunk carries, without its NUL. */
  function Text(chunk: seq<byte>): seq<byte>
    requires |chunk| >= HEADER_SIZE + 1
  {
    chunk[HEADER_SIZE..|chunk| - 1]
  }

  function CutAll(commands: seq<seq<byte>>): seq<seq<byte>> {
    seq(|commands|, i requires 0 <= i < |commands| => Cut(commands[i]))
  }

  /** The chunk holds this command, cut to its first 65522 bytes, and a NUL. */
  predicate Carries(chunk: seq<byte>, command: seq<byte>) {
    |chunk| > HEADER_SIZE && Text(chunk) == Cut(command) && chunk[|chunk| - 1] == 0
  }

  lemma FrameCarriesTheText(command: seq<byte>)
    ensures Carries(HostOrder(CommandFrame(command)), command)
  {
    var frame := CommandFrame(command);
    assert frame[HEADER_SIZE..] == Cut(command) + [0];
    HostOrderKeepsTheBody(frame);
    assert Text(HostOrder(frame)) == frame[HEADER_SIZE..][..|frame| - HEADER_SIZE - 1];
  }

  /** The same numbers as in the message, with the low byte first. */
  lemma HostOrderTurnsTheNumbers(frame: seq<byte>)
    requires |frame| >= HEADER_SIZE
    ensures var chunk := HostOrder(frame);
            FromBytes(chunk[7], chunk[6], chunk[5], chunk[4]) == Word(frame, 4) &&
            Half([chunk[9], chunk[8]], 0) == Half(frame, 8) && Half([chunk[11], chunk[10]], 0) == Half(frame, 10)
  {}

  lemma HostOrderKeepsTheBody(frame: seq<byte>)
    requires |frame| >= HEADER_SIZE
    ensures HostOrder(frame)[HEADER_SIZE..] == frame[HEADER_SIZE..]
  {}

  lemma {:induction false} ChunksCarryTheText(commands: seq<seq<byte>>)
    ensures |Chunks(commands)| == |commands|
    ensures forall i :: 0 <= i < |commands| ==> Carries(Chunks(commands)[i], commands[i])
  {
    if commands != [] {
      FrameCarriesTheText(commands[0]);
      ChunksCarryTheText(commands[1..]);
      forall i | 0 < i < |commands|
        ensures Carries(Chunks(commands)[i], commands[i])
      {
        assert commands[i] == commands[1..][i - 1];
        assert Chunks(commands)[i] == Chunks(commands[1..])[i - 1];
      }
    }
  }

  /** Reading back a stream of commands yields one chunk per command, in order. */
  lemma FramingRoundTrip(commands: seq<seq<byte>>)
    ensures |ReadAll(Stream(commands))| == |commands|
    ensures forall i :: 0 <= i < |commands| ==> Carries(ReadAll(Stream(commands))[i], commands[i])
  {
    var k := |Stream(commands)|;
    ReadingABeginning(commands, k);
    AllArrive(commands);
    assert Stream(commands)[..k] == Stream(commands) && commands[..|commands|] == commands;
    ChunksCarryTheText(commands);
  }

  lemma {:induction false} OnlyTheCutIsSent(a: seq<seq<byte>>, b: seq<seq<byte>>)
    requires CutAll(a) == CutAll(b)
    ensures Stream(a) == Stream(b)
  {
    assert |a| == |CutAll(a)| && |b| == |CutAll(b)|;
    if a != [] {
      assert CutAll(a)[0] == Cut(a[0]) && CutAll(b)[0] == Cut(b[0]);
      assert CutAll(a[1..]) == CutAll(a)[1..] && CutAll(b[1..]) == CutAll(b)[1..];
      OnlyTheCutIsSent(a[1..], b[1..]);
    }
  }

  /** Two lists of commands look the same on the wire exactly when they are the same after the cut; lists of
      commands that are not cut are uniquely decodable. */
  lemma StreamsAreDecodable(a: seq<seq<byte>>, b: seq<seq<byte>>)
    ensures Stream(a) == Stream(b) <==> CutAll(a) == CutAll(b)
  {
    if Stream(a) == Stream(b) {
      FramingRoundTrip(a);
      FramingRoundTrip(b);
      var chunks := ReadAll(Stream(a));
      forall i | 0 <= i < |a|
        ensures CutAll(a)[i] == CutAll(b)[i]
      {
        assert Carries(chunks[i], a[i]) && Carries(chunks[i], b[i]);
      }
    } else if CutAll(a) == CutAll(b) {
      OnlyTheCutIsSent(a, b);
    }
  }

  // ---------------------------------------------------------------- CHAN

  type Int32 = n: int | -0x8000_0000 <= n < 0x8000_0000

  datatype Channel = Channel(id: Int32, unknown1: Int32, unknown2: Int32, verbosityDefault: Int32,
                             verbosityCurrent: Int32, textRGBAOverride: UInt32, name: seq<byte>)

  const NAME_SIZE := 34
  const RECORD_SIZE := 58
  /** The size of the record in memory, with its two bytes of padding. */
  const SIZEOF_CHANNEL := 60

  function Signed(n: UInt32): Int32 {
    if n < 0x8000_0000 then n else n - 0x1_0000_0000
  }

  function Unsigned(n: Int32): UInt32 {
    if n >= 0 then n else n + 0x1_0000_0000
  }

  /** A name with its last byte forced to NUL. */
  function Terminated(name: seq<byte>): (r: seq<byte>)
    requires |name| == NAME_SIZE
    ensures |r| == NAME_SIZE
  {
    name[..NAME_SIZE - 1] + [0]
  }

  function DecodeRecord(bytes: seq<byte>, pos: nat): (c: Channel)
    requires pos + RECORD_SIZE <= |bytes|
  {
    Channel(Signed(Word(bytes, pos)), Signed(Word(bytes, pos + 4)), Signed(Word(bytes, pos + 8)),
            Signed(Word(bytes, pos + 12)), Signed(Word(bytes, pos + 16)), Word(bytes, pos + 20),
            Terminated(bytes[pos + 24..pos + 24 + NAME_SIZE]))
  }

  /** `numChannels`: a 64-bit subtraction that may wrap, divided by the size in memory, cut to 16 bits. */
  function NumChannels(chunkSize: nat): (n: nat)
    ensures n < 65536
  {
    (chunkSize - HEADER_SIZE - 2) % 0x1_0000_0000_0000_0000 / SIZEOF_CHANNEL % 65536
  }

  /** The loop of the parser reads inside the chunk exactly when there is room for the header and the
      count. */
  lemma ReadsInsideIffThereIsACount(chunkSize: nat)
    requires chunkSize < 0x1_0000_0000_0000_0000
    ensures HEADER_SIZE + 2 + RECORD_SIZE * NumChannels(chunkSize) <= chunkSize <==> chunkSize >= HEADER_SIZE + 2
    ensures chunkSize < HEADER_SIZE + 2 ==> NumChannels(chunkSize) == 17476
  {
    if chunkSize >= HEADER_SIZE + 2 {
      var remaining := chunkSize - HEADER_SIZE - 2;
      assert remaining % 0x1_0000_0000_0000_0000 == remaining;
      assert RECORD_SIZE * (remaining / SIZEOF_CHANNEL) <= remaining;
      assert NumChannels(chunkSize) <= remaining / SIZEOF_CHANNEL;
    } else {
      var remaining := 0x1_0000_0000_0000_0000 + chunkSize - HEADER_SIZE - 2;
      assert (chunkSize - HEADER_SIZE - 2) % 0x1_0000_0000_0000_0000 == remaining;
      assert remaining / SIZEOF_CHANNEL == 307445734561825860;
    }
  }

  function DecodeRecords(bytes: seq<byte>, pos: nat, n: nat): (cs: seq<Channel>)
    requires pos + RECORD_SIZE * n <= |bytes|
    ensures |cs| == n
  {
    if n == 0 then [] else DecodeRecords(bytes, pos, n - 1) + [DecodeRecord(bytes, pos + RECORD_SIZE * (n - 1))]
  }

  method ParseChannel(chunkBuf: seq<byte>, start: nat) returns (channel: Channel, data: nat)
    requires start + RECORD_SIZE <= |chunkBuf|
    ensures channel == DecodeRecord(chunkBuf, start) && data == start + RECORD_SIZE
  {
    data := start;
    var id := Signed(Word(chunkBuf, data));
    data := data + 4;
    var unknown1 := Signed(Word(chunkBuf, data));
    data := data + 4;
    var unknown2 := Signed(Word(chunkBuf, data));
    data := data + 4;
    var verbosityDefault := Signed(Word(chunkBuf, data));
    data := data + 4;
    var verbosityCurrent := Signed(Word(chunkBuf, data));
    data := data + 4;
    var textRGBAOverride := Word(chunkBuf, data);
    data := data + 4;
    var name := chunkBuf[data..data + NAME_SIZE][NAME_SIZE - 1 := 0];
    assert name == Terminated(chunkBuf[data..data + NAME_SIZE]);
    channel := Channel(id, unknown1, unknown2, verbosityDefault, verbosityCurrent, textRGBAOverride, name);
    data := data + NAME_SIZE;
  }

  /** What the parser makes of a chunk; None when it reads outside of it. */
  function ParsedChannels(chunk: seq<byte>): (r: Option<seq<Channel>>)
    requires |chunk| < 0x1_0000_0000_0000_0000
    ensures r.Some? ==> |r.value| == NumChannels(|chunk|)
  {
    ReadsInsideIffThereIsACount(|chunk|);
    if |chunk| < HEADER_SIZE + 2 then None
    else Some(DecodeRecords(chunk, HEADER_SIZE + 2, NumChannels(|chunk|)))
  }

  method ParseCHAN(chunkBuf: seq<byte>) returns (r: Option<seq<Channel>>)
    requires |chunkBuf| < 0x1_0000_0000_0000_0000
    ensures r == ParsedChannels(chunkBuf)
    ensures r.None? <==> |chunkBuf| < HEADER_SIZE + 2
  {
    var data := HEADER_SIZE;
    var numChannels := NumChannels(|chunkBuf|);
    ReadsInsideIffThereIsACount(|chunkBuf|);
    data := data + 2;
    var channels := [];
    var i := 0;
    while i < numChannels
      invariant 0 <= i <= numChannels && data == HEADER_SIZE + 2 + RECORD_SIZE * i
      invariant |chunkBuf| < HEADER_SIZE + 2 ==> i == 0
      invariant |chunkBuf| >= HEADER_SIZE + 2 ==> channels == DecodeRecords(chunkBuf, HEADER_SIZE + 2, i)
    {
      if data + RECORD_SIZE > |chunkBuf| {
        return None;
      }
      var channel;
      channel, data := ParseChannel(chunkBuf, data);
      channels := channels + [channel];
      i := i + 1;
    }
    r := Some(channels);
  }

  // What a sender puts on the wire: the records one after the other, without padding.

  function EncodeRecord(c: Channel): (bytes: seq<byte>)
    requires |c.name| == NAME_SIZE
    ensures |bytes| == RECORD_SIZE
  {
    ToWord(Unsigned(c.id)) + ToWord(Unsigned(c.unknown1)) + ToWord(Unsigned(c.unknown2))
    + ToWord(Unsigned(c.verbosityDefault)) + ToWord(Unsigned(c.verbosityCurrent)) + ToWord(c.textRGBAOverride)
    + c.name
  }

  predicate AllNamesFit(cs: seq<Channel>) {
    forall i :: 0 <= i < |cs| ==> |cs[i].name| == NAME_SIZE
  }

  function EncodeRecords(cs: seq<Channel>): (bytes: seq<byte>)
    requires AllNamesFit(cs)
    ensures |bytes| == RECORD_SIZE * |cs|
  {
    if cs == [] then [] else EncodeRecords(cs[..|cs| - 1]) + EncodeRecord(cs[|cs| - 1])
  }

  function Received(c: Channel): Channel
    requires |c.name| == NAME_SIZE
  {
    c.(name := Terminated(c.name))
  }

  /** Where a record stands does not change what is decoded. */
  lemma DecodeInside(bytes: seq<byte>, p: nat, record: seq<byte>)
    requires |record| == RECORD_SIZE && p + RECORD_SIZE <= |bytes| && bytes[p..p + RECORD_SIZE] == record
    ensures DecodeRecord(bytes, p) == DecodeRecord(record, 0)
  {
    forall k | 0 <= k < RECORD_SIZE
      ensures bytes[p + k] == record[k]
    {
      assert bytes[p..p + RECORD_SIZE][k] == bytes[p + k];
    }
    WordAt(bytes, p, record, 0);
    WordAt(bytes, p, record, 4);
    WordAt(bytes, p, record, 8);
    WordAt(bytes, p, record, 12);
    WordAt(bytes, p, record, 16);
    WordAt(bytes, p, record, 20);
    assert bytes[p + 24..p + 24 + NAME_SIZE] == record[24..24 + NAME_SIZE];
  }

  lemma WordAt(bytes: seq<byte>, p: nat, record: seq<byte>, k: nat)
    requires p + |record| <= |bytes| && k + 4 <= |record|
    requires forall i :: 0 <= i < |record| ==> bytes[p + i] == record[i]
    ensures Word(bytes, p + k) == Word(record, k)
  {
    assert bytes[p + (k + 1)] == record[k + 1] && bytes[p + (k + 2)] == record[k + 2]
        && bytes[p + (k + 3)] == record[k + 3];
  }

  lemma WordOfSlice(bytes: seq<byte>, pos: nat, n: UInt32)
    requires pos + 4 <= |bytes| && bytes[pos..pos + 4] == ToWord(n)
    ensures Word(bytes, pos) == n
  {
    var slice := bytes[pos..pos + 4];
    assert slice[0] == bytes[pos] && slice[1] == bytes[pos + 1];
    assert slice[2] == bytes[pos + 2] && slice[3] == bytes[pos + 3];
    WordRoundTrip(n);
  }

  lemma RecordRoundTrip(c: Channel)
    requires |c.name| == NAME_SIZE
    ensures DecodeRecord(EncodeRecord(c), 0) == Received(c)
  {
    var r := EncodeRecord(c);
    WordOfSlice(r, 0, Unsigned(c.id));
    WordOfSlice(r, 4, Unsigned(c.unknown1));
    WordOfSlice(r, 8, Unsigned(c.unknown2));
    WordOfSlice(r, 12, Unsigned(c.verbosityDefault));
    WordOfSlice(r, 16, Unsigned(c.verbosityCurrent));
    WordOfSlice(r, 20, c.textRGBAOverride);
    assert r[24..24 + NAME_SIZE] == c.name;
  }

  predicate StandsAt(bytes: seq<byte>, start: nat, c: Channel) {
    |c.name| == NAME_SIZE && start + RECORD_SIZE <= |bytes| &&
    bytes[start..start + RECORD_SIZE] == EncodeRecord(c)
  }

  lemma {:induction false} RecordAt(cs: seq<Channel>, k: nat)
    requires AllNamesFit(cs) && k < |cs|
    ensures StandsAt(EncodeRecords(cs), RECORD_SIZE * k, cs[k])
  {
    var rest, last := EncodeRecords(cs[..|cs| - 1]), EncodeRecord(cs[|cs| - 1]);
    var start := RECORD_SIZE * k;
    if k < |cs| - 1 {
      RecordAt(cs[..|cs| - 1], k);
      assert (rest + last)[start..start + RECORD_SIZE] == rest[start..start + RECORD_SIZE];
    } else {
      assert (rest + last)[start..start + RECORD_SIZE] == last;
    }
  }

  lemma RecordAfter(prefix: seq<byte>, bytes: seq<byte>, start: nat, c: Channel)
    requires StandsAt(bytes, start, c)
    ensures DecodeRecord(prefix + bytes, |prefix| + start) == Received(c)
  {
    var all, p := prefix + bytes, |prefix| + start;
    var record := EncodeRecord(c);
    assert all[p..p + RECORD_SIZE] == record;
    DecodeInside(all, p, record);
    RecordRoundTrip(c);
  }

  lemma {:induction false} RecordsRoundTrip(bytes: seq<byte>, pos: nat, cs: seq<Channel>)
    requires AllNamesFit(cs) && pos + RECORD_SIZE * |cs| <= |bytes|
    requires forall i :: 0 <= i < |cs| ==> DecodeRecord(bytes, pos + RECORD_SIZE * i) == Received(cs[i])
    ensures DecodeRecords(bytes, pos, |cs|) == ReceivedAll(cs)
  {
    if cs != [] {
      var rest := cs[..|cs| - 1];
      RecordsRoundTrip(bytes, pos, rest);
      assert DecodeRecord(bytes, pos + RECORD_SIZE * |rest|) == Received(cs[|rest|]);
    }
  }

  function ReceivedAll(cs: seq<Channel>): seq<Channel>
    requires AllNamesFit(cs)
  {
    if cs == [] then [] else ReceivedAll(cs[..|cs| - 1]) + [Received(cs[|cs| - 1])]
  }

  /** The chunk of a CHAN message. */
  function ChannelChunk(header: seq<byte>, count: seq<byte>, cs: seq<Channel>): (chunk: seq<byte>)
    requires |header| == HEADER_SIZE && |count| == 2 && AllNamesFit(cs)
    ensures |chunk| == HEADER_SIZE + 2 + RECORD_SIZE * |cs|
  {
    header + count + EncodeRecords(cs)
  }

  /** Of `n` records the parser finds the first `58 n / 60`: one is lost for every thirty begun. */
  function Found(n: nat): nat {
    n - (n + 29) / 30
  }

  lemma FoundIsTheQuotient(n: nat)
    ensures RECORD_SIZE * n / SIZEOF_CHANNEL == Found(n) <= n && (Found(n) == n <==> n == 0)
  {
    var lost := (n + 29) / 30;
    assert 30 * lost - 29 <= n <= 30 * lost;
    assert RECORD_SIZE * n == SIZEOF_CHANNEL * (n - lost) + 2 * (30 * lost - n);
  }

  lemma RecordsCounted(n: nat)
    requires HEADER_SIZE + 2 + RECORD_SIZE * n <= 65535
    ensures NumChannels(HEADER_SIZE + 2 + RECORD_SIZE * n) == Found(n)
  {
    FoundIsTheQuotient(n);
  }

  /** What the parser makes of a CHAN message: exactly the first records, each as it was sent but for the
      last byte of its name; the whole list only when it is empty. */
  lemma ChannelsAreCutShort(header: seq<byte>, count: seq<byte>, cs: seq<Channel>)
    requires |header| == HEADER_SIZE && |count| == 2 && AllNamesFit(cs)
    requires |ChannelChunk(header, count, cs)| <= 65535
    ensures var chunk, n := ChannelChunk(header, count, cs), |cs|;
            Found(n) <= n && ParsedChannels(chunk) == Some(ReceivedAll(cs[..Found(n)])) &&
            (Found(n) == n <==> n == 0)
  {
    var n := |cs|;
    FoundIsTheQuotient(n);
    RecordsCounted(n);
    var chunk := ChannelChunk(header, count, cs);
    forall i | 0 <= i < Found(n)
      ensures DecodeRecord(chunk, HEADER_SIZE + 2 + RECORD_SIZE * i) == Received(cs[i])
    {
      RecordAt(cs, i);
      RecordAfter(header + count, EncodeRecords(cs), RECORD_SIZE * i, cs[i]);
    }
    RecordsRoundTrip(chunk, HEADER_SIZE + 2, cs[..Found(n)]);
  }

  /** The same from the wire: reading a CHAN message off the stream and parsing the chunk. */
  lemma ChannelsOverTheWire(header: seq<byte>, count: seq<byte>, cs: seq<Channel>, rest: seq<byte>)
    requires |header| == HEADER_SIZE && |count| == 2 && AllNamesFit(cs)
    requires IsFrame(ChannelChunk(header, count, cs))
    ensures var (outcome, left) := Read(ChannelChunk(header, count, cs) + rest);
            left == rest && outcome.Chunk? && Found(|cs|) <= |cs| &&
            ParsedChannels(outcome.bytes) == Some(ReceivedAll(cs[..Found(|cs|)]))
  {
    var frame := ChannelChunk(header, count, cs);
    ReadOneFrame(frame, rest);
    var chunk := HostOrder(frame);
    SameBody(header, count, cs);
    ChannelsAreCutShort(chunk[..HEADER_SIZE], count, cs);
  }

  lemma SameBody(header: seq<byte>, count: seq<byte>, cs: seq<Channel>)
    requires |header| == HEADER_SIZE && |count| == 2 && AllNamesFit(cs)
    ensures var chunk := HostOrder(ChannelChunk(header, count, cs));
            chunk == ChannelChunk(chunk[..HEADER_SIZE], count, cs)
  {
    Regroup(header, count, EncodeRecords(cs));
    var chunk := HostOrder(header + (count + EncodeRecords(cs)));
    HostOrderKeepsTheBody(header + (count + EncodeRecords(cs)));
    Regroup(chunk[..HEADER_SIZE], count, EncodeRecords(cs));
    assert chunk == chunk[..HEADER_SIZE] + chunk[HEADER_SIZE..];
  }

  lemma Regroup<T>(a: seq<T>, b: seq<T>, c: seq<T>)
    ensures a + (b + c) == a + b + c
  {}

  // ---------------------------------------------------------------- the other messages

  /** The variable of a CVAR message; the two ranges are floats, given by their bits. */
  datatype Cvar = Cvar(name: seq<byte>, unknown: UInt32, flags: UInt32, rangeMin: UInt32, rangeMax: UInt32,
                       padding: byte)

  const SIZEOF_CVAR := 84
  const SIZEOF_CFGV := 129
  const AINF_WORDS := 19
  const NAME_POS := HEADER_SIZE + 4
  const MESSAGE_POS := HEADER_SIZE + 28

  /** The first NUL from `pos` on. */
  function FirstNul(bytes: seq<byte>, pos: nat): (r: Option<nat>)
    ensures r.Some? ==> pos <= r.value < |bytes| && bytes[r.value] == 0 && 0 !in bytes[pos..r.value]
    ensures r.None? ==> forall i :: pos <= i < |bytes| ==> bytes[i] != 0
    decreases |bytes| - pos
  {
    if pos >= |bytes| then None
    else if bytes[pos] == 0 then Some(pos)
    else
      var r := FirstNul(bytes, pos + 1);
      assert r.Some? ==> bytes[pos..r.value] == [bytes[pos]] + bytes[pos + 1..r.value];
      r
  }

  function StripNonAscii(s: seq<byte>): seq<byte> {
    if s == [] then []
    else StripNonAscii(s[..|s| - 1]) + if s[|s| - 1] <= 127 then [s[|s| - 1]] else []
  }

  predicate IsAscii(s: seq<byte>) {
    forall i :: 0 <= i < |s| ==> s[i] <= 127
  }

  /** Stripping leaves ASCII, and ASCII as it is; so the second stripping of a message does nothing. */
  lemma {:induction false} StrippedIsAscii(s: seq<byte>)
    ensures IsAscii(StripNonAscii(s))
    ensures IsAscii(s) ==> StripNonAscii(s) == s
  {
    if s != [] {
      StrippedIsAscii(s[..|s| - 1]);
      assert s == s[..|s| - 1] + [s[|s| - 1]];
    }
  }

  /** `ADON`: the name, or None when its length reaches beyond the chunk. */
  function AdonName(chunk: seq<byte>): Option<seq<byte>> {
    if |chunk| < NAME_POS || |chunk| < NAME_POS + Half(chunk, HEADER_SIZE + 2) then None
    else Some(chunk[NAME_POS..NAME_POS + Half(chunk, HEADER_SIZE + 2)])
  }

  datatype Prnt = Prnt(channelId: Int32, color: UInt32, message: seq<byte>)

  /** `PRNT`: channel, colour (copied as it is) and the ASCII characters of the text, or None when no NUL ends the
      text. */
  function PrintOf(chunk: seq<byte>): Option<Prnt> {
    match FirstNul(chunk, MESSAGE_POS)
    case None => None
    case Some(end) =>
      Some(Prnt(Signed(Word(chunk, HEADER_SIZE)), FromBytes(chunk[27], chunk[26], chunk[25], chunk[24]),
                 StripNonAscii(chunk[MESSAGE_POS..end])))
  }

  function CvarOf(chunk: seq<byte>): Option<Cvar> {
    if |chunk| < HEADER_SIZE + SIZEOF_CVAR then None
    else Some(Cvar(chunk[HEADER_SIZE..HEADER_SIZE + 64], Word(chunk, HEADER_SIZE + 64), Word(chunk, HEADER_SIZE + 68),
                   Word(chunk, HEADER_SIZE + 72), Word(chunk, HEADER_SIZE + 76), chunk[HEADER_SIZE + 80]))
  }

  method ParseADON(chunkBuf: seq<byte>) returns (r: Option<seq<byte>>)
    ensures r == AdonName(chunkBuf)
  {
    if |chunkBuf| < NAME_POS {
      return None;
    }
    var nameLength := Half(chunkBuf, HEADER_SIZE + 2);
    var end := NAME_POS + nameLength;
    if end > |chunkBuf| {
      return None;
    }
    r := Some(chunkBuf[NAME_POS..end]);
  }

  method StripLoop(input: seq<byte>) returns (output: seq<byte>)
    ensures output == StripNonAscii(input)
  {
    output := [];
    var i := 0;
    while i < |input|
      invariant i <= |input| && output == StripNonAscii(input[..i])
    {
      assert input[..i + 1][..i] == input[..i];
      if input[i] <= 127 {
        output := output + [input[i]];
      }
      i := i + 1;
    }
    assert input[..i] == input;
  }

  method ParsePRNT(chunkBuf: seq<byte>) returns (r: Option<Prnt>)
    ensures r == PrintOf(chunkBuf)
  {
    var end := MESSAGE_POS;
    while end < |chunkBuf| && chunkBuf[end] != 0
      invariant MESSAGE_POS <= end
      invariant FirstNul(chunkBuf, MESSAGE_POS) == FirstNul(chunkBuf, end)
      decreases |chunkBuf| - end
    {
      end := end + 1;
    }
    if end >= |chunkBuf| {
      return None;
    }
    var channelId := Signed(Word(chunkBuf, HEADER_SIZE));
    var color := FromBytes(chunkBuf[27], chunkBuf[26], chunkBuf[25], chunkBuf[24]);
    var message := StripLoop(chunkBuf[MESSAGE_POS..end]);
    r := Some(Prnt(channelId, color, message));
  }

  lemma {:induction false} FirstNulIs(bytes: seq<byte>, pos: nat, end: nat)
    requires pos <= end < |bytes| && bytes[end] == 0 && forall i :: pos <= i < end ==> bytes[i] != 0
    ensures FirstNul(bytes, pos) == Some(end)
    decreases end - pos
  {
    if pos < end {
      FirstNulIs(bytes, pos + 1, end);
    }
  }

  // ---------------------------------------------------------------- the connection

  const AINF: seq<byte> := [65, 73, 78, 70]
  const ADON: seq<byte> := [65, 68, 79, 78]
  const CHAN: seq<byte> := [67, 72, 65, 78]
  const PRNT: seq<byte> := [80, 82, 78, 84]
  const CVAR: seq<byte> := [67, 86, 65, 82]
  const CFGV: seq<byte> := [67, 70, 71, 86]

  /** What a message says; AINF, CFGV and unknown types have no effect. */
  datatype Message =
    | AddonName(name: seq<byte>)
    | ChannelList(channels: seq<Channel>)
    | Printed(prnt: Prnt)
    | Variable(cvar: Cvar)
    | NoEffect

  /** The parser for a type; None when it reads outside of the chunk. */
  function MessageOf(msgType: seq<byte>, chunk: seq<byte>): Option<Message>
    requires |chunk| <= 65535
  {
    if msgType == AINF then if |chunk| <= HEADER_SIZE + 4 * AINF_WORDS then None else Some(NoEffect)
    else if msgType == ADON then
      match AdonName(chunk) case None => None case Some(name) => Some(AddonName(name))
    else if msgType == CHAN then
      match ParsedChannels(chunk) case None => None case Some(channels) => Some(ChannelList(channels))
    else if msgType == PRNT then
      match PrintOf(chunk) case None => None case Some(prnt) => Some(Printed(prnt))
    else if msgType == CVAR then
      match CvarOf(chunk) case None => None case Some(cvar) => Some(Variable(cvar))
    else if msgType == CFGV then if |chunk| < HEADER_SIZE + SIZEOF_CFGV then None else Some(NoEffect)
    else Some(NoEffect)
  }

  /** The bytes that the parser for a type touches are in the chunk. */
  predicate FitsItsType(msgType: seq<byte>, chunk: seq<byte>) {
    (msgType == AINF ==> |chunk| >= 89) &&
    (msgType == ADON ==> |chunk| >= 16 && |chunk| >= 16 + Half(chunk, 14)) &&
    (msgType == CHAN ==> |chunk| >= 14) &&
    (msgType == PRNT ==> exists i :: 40 <= i < |chunk| && chunk[i] == 0) &&
    (msgType == CVAR ==> |chunk| >= 96) &&
    (msgType == CFGV ==> |chunk| >= 141)
  }

  lemma ParsersNeedTheirSize(msgType: seq<byte>, chunk: seq<byte>)
    requires |chunk| <= 65535
    ensures MessageOf(msgType, chunk).Some? <==> FitsItsType(msgType, chunk)
  {}

  /** The state that messages change, and the calls of the callbacks. */
  datatype Session = Session(adonName: seq<byte>, cvars: seq<Cvar>, calls: seq<Call>)

  datatype Call =
    | OnAddon(name: seq<byte>)
    | OnChannels(channels: seq<Channel>)
    | OnPrint(prnt: Prnt)
    | OnCvars(cvars: seq<Cvar>)

  function After(s: Session, m: Message): Session {
    match m
    case AddonName(name) => s.(adonName := name, calls := s.calls + [OnAddon(name)])
    case ChannelList(channels) => s.(calls := s.calls + [OnChannels(channels)])
    case Printed(prnt) => s.(calls := s.calls + [OnPrint(prnt)])
    case Variable(cvar) => s.(cvars := s.cvars + [cvar], calls := s.calls + [OnCvars(s.cvars + [cvar])])
    case NoEffect => s
  }

  datatype ReadResult = Ready | WouldBlock | Failed | Undefined

  /** What one turn of the receiving loop comes to: a message was handled, there was none, or the source went
      outside of one of its buffers. */
  datatype Turn = Handled(message: Message) | Nothing | OutOfBounds

  function TurnOf(stream: seq<byte>): Turn {
    match Read(stream).0
    case Short => Nothing
    case Overrun => OutOfBounds
    case Chunk(bytes) =>
      match MessageOf(bytes[..4], bytes) case None => OutOfBounds case Some(message) => Handled(message)
  }

  /** A turn goes outside of a buffer exactly when the length field is below the header size, or the message is
      complete and too short for its type. */
  lemma WhenATurnGoesWrong(stream: seq<byte>)
    ensures TurnOf(stream).OutOfBounds? <==>
            |stream| >= HEADER_SIZE &&
            var length := Half(stream, 8);
            length < HEADER_SIZE || (length <= |stream| && !FitsItsType(stream[..4], stream[..length]))
  {
    if |stream| >= HEADER_SIZE && HEADER_SIZE <= Half(stream, 8) <= |stream| {
      var frame := stream[..Half(stream, 8)];
      SameForTheType(frame);
      assert frame[..4] == stream[..4];
      ParsersNeedTheirSize(stream[..4], HostOrder(frame));
    }
  }

  /** The numbers in the header are not looked at by the parsers. */
  lemma SameForTheType(frame: seq<byte>)
    requires |frame| >= HEADER_SIZE
    ensures HostOrder(frame)[..4] == frame[..4]
    ensures FitsItsType(frame[..4], HostOrder(frame)) <==> FitsItsType(frame[..4], frame)
  {
    var chunk := HostOrder(frame);
    HostOrderKeepsTheBody(frame);
    forall i | HEADER_SIZE <= i < |frame|
      ensures chunk[i] == frame[i]
    {
      assert chunk[HEADER_SIZE..][i - HEADER_SIZE] == frame[HEADER_SIZE..][i - HEADER_SIZE];
    }
  }

  /** A PRNT message without a text. */
  lemma BarePrintGoesWrong()
    ensures TurnOf(PRNT + [0, 0, 0, 0, 0, 12, 0, 0]).OutOfBounds?
  {
    var stream: seq<byte> := PRNT + [0, 0, 0, 0, 0, 12, 0, 0];
    assert stream[..4] == PRNT && Half(stream, 8) == 12;
    WhenATurnGoesWrong(stream);
  }

  // ---------------------------------------------------------------- messages on the wire

  /** A message as it is sent. */
  function Wire(msgType: seq<byte>, version: UInt32, handle: seq<byte>, body: seq<byte>): (frame: seq<byte>)
    requires |msgType| == 4 && |handle| == 2 && HEADER_SIZE + |body| <= 65535
    ensures |frame| == HEADER_SIZE + |body|
  {
    msgType + ToWord(version) + ToHalf(HEADER_SIZE + |body|) + handle + body
  }

  /** What arrives of it: its type and its body. */
  lemma OverTheWire(msgType: seq<byte>, version: UInt32, handle: seq<byte>, body: seq<byte>, rest: seq<byte>)
    returns (chunk: seq<byte>)
    requires |msgType| == 4 && |handle| == 2 && HEADER_SIZE + |body| <= 65535
    ensures Read(Wire(msgType, version, handle, body) + rest) == (Chunk(chunk), rest)
    ensures |chunk| == HEADER_SIZE + |body| && chunk[..4] == msgType && chunk[HEADER_SIZE..] == body
  {
    var frame := Wire(msgType, version, handle, body);
    assert frame[8..10] == ToHalf(HEADER_SIZE + |body|);
    assert Half(frame, 8) == HEADER_SIZE + |body|;
    ReadOneFrame(frame, rest);
    chunk := HostOrder(frame);
    HostOrderKeepsTheBody(frame);
    assert frame[HEADER_SIZE..] == body && chunk[..4] == frame[..4] == msgType;
  }

  function LowFirst(n: UInt32): (bytes: seq<byte>)
    ensures |bytes| == 4
  {
    [n % 256, n / 256 % 256, n / 0x1_0000 % 256, n / 0x100_0000]
  }

  /** A "PRNT" message is parsed to its channel, its colour and its text, whatever the other bytes are. */
  lemma PrintRoundTrip(version: UInt32, handle: seq<byte>, id: Int32, gap: seq<byte>, color: UInt32, fill: seq<byte>,
                      text: seq<byte>, more: seq<byte>, rest: seq<byte>)
    requires |handle| == 2 && |gap| == 8 && |fill| == 12 && 0 !in text && IsAscii(text)
    requires MESSAGE_POS + |text| + 1 + |more| <= 65535
    ensures var body := ToWord(Unsigned(id)) + gap + LowFirst(color) + fill + text + [0] + more;
            TurnOf(Wire([80, 82, 78, 84], version, handle, body) + rest) == Handled(Printed(Prnt(id, color, text)))
  {
    var body := ToWord(Unsigned(id)) + gap + LowFirst(color) + fill + text + [0] + more;
    PrntBody(ToWord(Unsigned(id)), gap, LowFirst(color), fill, text, more);
    var chunk := OverTheWire(PRNT, version, handle, body, rest);
    SliceOfBody(chunk, body, 0, 4);
    SliceOfBody(chunk, body, 12, 16);
    SliceOfBody(chunk, body, 28, 28 + |text|);
    SliceOfBody(chunk, body, 28 + |text|, 29 + |text|);
    PrntIsParsed(chunk, id, color, text);
  }

  /** Where the parts of a PRNT body are. */
  lemma PrntBody(id: seq<byte>, gap: seq<byte>, color: seq<byte>, fill: seq<byte>, text: seq<byte>, more: seq<byte>)
    requires |id| == 4 && |gap| == 8 && |color| == 4 && |fill| == 12
    ensures var body := id + gap + color + fill + text + [0] + more;
            body[0..4] == id && body[12..16] == color && body[28..28 + |text|] == text &&
            body[28 + |text|..29 + |text|] == [0]
  {}

  lemma PrntIsParsed(chunk: seq<byte>, id: Int32, color: UInt32, text: seq<byte>)
    requires MESSAGE_POS + |text| < |chunk| && 0 !in text && IsAscii(text)
    requires chunk[12..16] == ToWord(Unsigned(id)) && chunk[24..28] == LowFirst(color)
    requires chunk[40..40 + |text|] == text && chunk[40 + |text|..41 + |text|] == [0]
    ensures PrintOf(chunk) == Some(Prnt(id, color, text))
  {
    var end := MESSAGE_POS + |text|;
    assert chunk[end] == chunk[end..end + 1][0];
    forall i | MESSAGE_POS <= i < end
      ensures chunk[i] != 0
    {
      assert chunk[i] == chunk[40..end][i - MESSAGE_POS];
    }
    FirstNulIs(chunk, MESSAGE_POS, end);
    StrippedIsAscii(text);
    WordOfSlice(chunk, HEADER_SIZE, Unsigned(id));
    LowFirstIsRead(chunk, 24, color);
  }

  lemma SliceOfBody(chunk: seq<byte>, body: seq<byte>, i: nat, j: nat)
    requires |chunk| == HEADER_SIZE + |body| && chunk[HEADER_SIZE..] == body && i <= j <= |body|
    ensures chunk[HEADER_SIZE + i..HEADER_SIZE + j] == body[i..j]
  {
    assert chunk[HEADER_SIZE..][i..j] == chunk[HEADER_SIZE + i..HEADER_SIZE + j];
  }

  lemma LowFirstIsRead(bytes: seq<byte>, pos: nat, n: UInt32)
    requires pos + 4 <= |bytes| && bytes[pos..pos + 4] == LowFirst(n)
    ensures FromBytes(bytes[pos + 3], bytes[pos + 2], bytes[pos + 1], bytes[pos]) == n
  {
    var slice := bytes[pos..pos + 4];
    assert slice[0] == bytes[pos] && slice[1] == bytes[pos + 1];
    assert slice[2] == bytes[pos + 2] && slice[3] == bytes[pos + 3];
    WordRoundTrip(n);
  }

  /** An "ADON" message is parsed to its name. */
  lemma AdonRoundTrip(version: UInt32, handle: seq<byte>, unknown: seq<byte>, name: seq<byte>, more: seq<byte>,
                      rest: seq<byte>)
    requires |handle| == 2 && |unknown| == 2 && NAME_POS + |name| + |more| <= 65535
    ensures var body := unknown + ToHalf(|name|) + name + more;
            TurnOf(Wire([65, 68, 79, 78], version, handle, body) + rest) == Handled(AddonName(name))
  {
    var body := unknown + ToHalf(|name|) + name + more;
    var chunk := OverTheWire(ADON, version, handle, body, rest);
    assert body[2..4] == ToHalf(|name|) && body[4..4 + |name|] == name;
    SliceOfBody(chunk, body, 2, 4);
    SliceOfBody(chunk, body, 4, 4 + |name|);
    assert chunk[14..16][0] == chunk[14] && chunk[14..16][1] == chunk[15];
    assert Half(chunk, 14) == |name|;
  }

  /** A "CVAR" message is parsed to its variable. */
  lemma CvarRoundTrip(version: UInt32, handle: seq<byte>, c: Cvar, more: seq<byte>, rest: seq<byte>)
    requires |handle| == 2 && |c.name| == 64 && 3 <= |more| && HEADER_SIZE + 81 + |more| <= 65535
    ensures var body := c.name + ToWord(c.unknown) + ToWord(c.flags) + ToWord(c.rangeMin) + ToWord(c.rangeMax)
                        + [c.padding] + more;
            TurnOf(Wire([67, 86, 65, 82], version, handle, body) + rest) == Handled(Variable(c))
  {
    var body := c.name + ToWord(c.unknown) + ToWord(c.flags) + ToWord(c.rangeMin) + ToWord(c.rangeMax)
    + [c.padding] + more;
    var chunk := OverTheWire(CVAR, version, handle, body, rest);
    CvarBody(c, more);
    SliceOfBody(chunk, body, 0, 64);
    SliceOfBody(chunk, body, 64, 68);
    SliceOfBody(chunk, body, 68, 72);
    SliceOfBody(chunk, body, 72, 76);
    SliceOfBody(chunk, body, 76, 80);
    SliceOfBody(chunk, body, 80, 81);
    assert chunk[92] == chunk[92..93][0];
    WordOfSlice(chunk, 76, c.unknown);
    WordOfSlice(chunk, 80, c.flags);
    WordOfSlice(chunk, 84, c.rangeMin);
    WordOfSlice(chunk, 88, c.rangeMax);
  }

  lemma CvarBody(c: Cvar, more: seq<byte>)
    requires |c.name| == 64
    ensures var body := c.name + ToWord(c.unknown) + ToWord(c.flags) + ToWord(c.rangeMin) + ToWord(c.rangeMax)
                        + [c.padding] + more;
            body[0..64] == c.name && body[64..68] == ToWord(c.unknown) && body[68..72] == ToWord(c.flags) &&
            body[72..76] == ToWord(c.rangeMin) && body[76..80] == ToWord(c.rangeMax) && body[80..81] == [c.padding]
  {}

  /** A "CHAN" message is parsed to the first of its channels. */
  lemma ChanRoundTrip(version: UInt32, handle: seq<byte>, count: seq<byte>, cs: seq<Channel>, rest: seq<byte>)
    requires |handle| == 2 && |count| == 2 && AllNamesFit(cs) && HEADER_SIZE + 2 + RECORD_SIZE * |cs| <= 65535
    ensures Found(|cs|) <= |cs| && Found(|cs|) == |cs| - (|cs| + 29) / 30
    ensures TurnOf(Wire([67, 72, 65, 78], version, handle, count + EncodeRecords(cs)) + rest)
         == Handled(ChannelList(ReceivedAll(cs[..Found(|cs|)])))
  {
    FoundIsTheQuotient(|cs|);
    var body := count + EncodeRecords(cs);
    var chunk := OverTheWire(CHAN, version, handle, body, rest);
    ChanIsParsed(chunk, count, cs);
    ChanIsHandled(Wire(CHAN, version, handle, body) + rest, rest, chunk, ReceivedAll(cs[..Found(|cs|)]));
  }

  lemma ChanIsHandled(stream: seq<byte>, rest: seq<byte>, chunk: seq<byte>, channels: seq<Channel>)
    requires Read(stream) == (Chunk(chunk), rest) && HEADER_SIZE <= |chunk| <= 65535 && chunk[..4] == CHAN
    requires ParsedChannels(chunk) == Some(channels)
    ensures TurnOf(stream) == Handled(ChannelList(channels))
  {}

  lemma ChanIsParsed(chunk: seq<byte>, count: seq<byte>, cs: seq<Channel>)
    requires |count| == 2 && AllNamesFit(cs) && HEADER_SIZE <= |chunk| <= 65535
    requires chunk[HEADER_SIZE..] == count + EncodeRecords(cs)
    ensures ParsedChannels(chunk) == Some(ReceivedAll(cs[..Found(|cs|)]))
  {
    Regroup(chunk[..HEADER_SIZE], count, EncodeRecords(cs));
    assert chunk == chunk[..HEADER_SIZE] + chunk[HEADER_SIZE..];
    ChannelsAreCutShort(chunk[..HEADER_SIZE], count, cs);
  }

  // ---------------------------------------------------------------- what a connection has received

  function AfterAll(msgs: seq<Message>): Session {
    if msgs == [] then Session([], [], []) else After(AfterAll(msgs[..|msgs| - 1]), msgs[|msgs| - 1])
  }

  function Variables(msgs: seq<Message>): seq<Cvar> {
    if msgs == [] then []
    else
      Variables(msgs[..|msgs| - 1])
      + if msgs[|msgs| - 1].Variable? then [msgs[|msgs| - 1].cvar] else []
  }

  /** The call that the last message causes, if it causes one. */
  function CallsOfLast(msgs: seq<Message>): seq<Call>
    requires msgs != []
  {
    match msgs[|msgs| - 1]
    case AddonName(name) => [OnAddon(name)]
    case ChannelList(channels) => [OnChannels(channels)]
    case Printed(prnt) => [OnPrint(prnt)]
    case Variable(_) => [OnCvars(Variables(msgs))]
    case NoEffect => []
  }

  function Calls(msgs: seq<Message>): seq<Call> {
    if msgs == [] then [] else Calls(msgs[..|msgs| - 1]) + CallsOfLast(msgs)
  }

  /** After any messages the variables are all that were received, in order; the name is the last one; and each
      message caused its own call, in order, that of a variable with all variables up to it. */
  lemma {:induction false} SessionIsWhatWasReceived(msgs: seq<Message>)
    ensures AfterAll(msgs).cvars == Variables(msgs) && AfterAll(msgs).calls == Calls(msgs)
    ensures msgs != [] && msgs[|msgs| - 1].AddonName? ==> AfterAll(msgs).adonName == msgs[|msgs| - 1].name
    ensures msgs != [] && !msgs[|msgs| - 1].AddonName? ==>
              AfterAll(msgs).adonName == AfterAll(msgs[..|msgs| - 1]).adonName
  {
    if msgs != [] {
      SessionIsWhatWasReceived(msgs[..|msgs| - 1]);
    }
  }

  class Connection {
    /** The bytes the socket has not delivered yet. */
    var incoming: seq<byte>
    var adonName: seq<byte>
    var cvars: seq<Cvar>
    /** The calls of the callbacks so far. */
    var calls: seq<Call>

    function State(): Session
      reads this
    {
      Session(adonName, cvars, calls)
    }

    constructor (incoming: seq<byte>)
      ensures this.incoming == incoming && State() == Session([], [], [])
    {
      this.incoming, adonName, cvars, calls := incoming, [], [], [];
    }

    method Recv(n: nat) returns (data: seq<byte>)
      modifies this`incoming
      ensures var k := if n <= |old(incoming)| then n else |old(incoming)|;
              data == old(incoming)[..k] && incoming == old(incoming)[k..]
    {
      var k := if n <= |incoming| then n else |incoming|;
      data, incoming := incoming[..k], incoming[k..];
    }

    method ReadChunk(wouldBlock: bool) returns (result: ReadResult, outputBuf: seq<byte>)
      modifies this`incoming
      ensures var (outcome, rest) := Read(old(incoming));
              incoming == rest &&
              match outcome
              case Chunk(bytes) => result == Ready && outputBuf == bytes
              case Short => result == if wouldBlock then WouldBlock else Failed
              case Overrun => result == Undefined
    {
      ghost var stream := incoming;
      outputBuf := [];
      var header := Recv(HEADER_SIZE);
      if |header| < HEADER_SIZE {
        return if wouldBlock then WouldBlock else Failed, outputBuf;
      }
      assert Half(header, 8) == Half(stream, 8);
      var length := Half(header, 8);
      if length < HEADER_SIZE {
        return Undefined, outputBuf;
      }
      outputBuf := header[..4] + [header[7], header[6], header[5], header[4]] + [header[9], header[8]]
      + [header[11], header[10]];
      var body := Recv(length - HEADER_SIZE);
      if |body| < length - HEADER_SIZE {
        return if wouldBlock then WouldBlock else Failed, outputBuf;
      }
      assert stream[..length] == header + body && stream[length..] == incoming;
      outputBuf := outputBuf + body;
      result := Ready;
    }

    /** Dispatch on the type; not ok when a parser reads outside of the chunk. */
    method ProcessPacket(msgType: seq<byte>, chunkBuf: seq<byte>) returns (ok: bool)
      requires |chunkBuf| <= 65535
      modifies this`adonName, this`cvars, this`calls
      ensures match MessageOf(msgType, chunkBuf)
              case None => !ok && State() == old(State())
              case Some(message) => ok && State() == After(old(State()), message)
    {
      if msgType == AINF {
        return |chunkBuf| > HEADER_SIZE + 4 * AINF_WORDS;
      } else if msgType == ADON {
        var name := ParseADON(chunkBuf);
        if name.None? {
          return false;
        }
        adonName := name.value;
        calls := calls + [OnAddon(adonName)];
      } else if msgType == CHAN {
        var channels := ParseCHAN(chunkBuf);
        if channels.None? {
          return false;
        }
        calls := calls + [OnChannels(channels.value)];
      } else if msgType == PRNT {
        var prnt := ParsePRNT(chunkBuf);
        if prnt.None? {
          return false;
        }
        var message := StripLoop(prnt.value.message);
        StrippedIsAscii(chunkBuf[MESSAGE_POS..FirstNul(chunkBuf, MESSAGE_POS).value]);
        StrippedIsAscii(prnt.value.message);
        calls := calls + [OnPrint(prnt.value.(message := message))];
      } else if msgType == CVAR {
        var cvar := CvarOf(chunkBuf);
        if cvar.None? {
          return false;
        }
        cvars := cvars + [cvar.value];
        calls := calls + [OnCvars(cvars)];
      } else if msgType == CFGV {
        return |chunkBuf| >= HEADER_SIZE + SIZEOF_CFGV;
      }
      ok := true;
    }

    /** Takes one message off the stream and handles it, or reports that there is none. */
    method ProcessIncomingData(wouldBlock: bool) returns (turn: Turn)
      modifies this
      ensures incoming == Read(old(incoming)).1 && turn == TurnOf(old(incoming))
      ensures State() == if turn.Handled? then After(old(State()), turn.message) else old(State())
    {
      var result, chunkBuf := ReadChunk(wouldBlock);
      if result != Ready {
        return if result == Undefined then OutOfBounds else Nothing;
      }
      var ok := ProcessPacket(chunkBuf[..4], chunkBuf);
      turn := if ok then Handled(MessageOf(chunkBuf[..4], chunkBuf).value) else OutOfBounds;
    }
  }
}
