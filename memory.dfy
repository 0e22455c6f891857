/** The save-state container: a 16-byte header (magic, version, payload
    size, crc) in front of a placeholder payload, the one-slot snapshot
    kept by the core, and the libretro memory-region table. Header words
    are 32-bit host-order values; the model fixes the host as
    little-endian. */
module SaveState {
  import opened Common

  /** "CSTS". */
  const MAGIC: uint32 := 0x5354_5343
  const VERSION: uint32 := 1
  /** `sizeof(save_state_header)`: four 32-bit words. */
  const HEADER_SIZE: nat := 16
  /** The estimate `cytrus_memory_init` records as the state size: 64 MiB. */
  const MAX_STATE_SIZE: nat := 64 * 1024 * 1024
  const TWO_TO_THE_32: nat := 0x1_0000_0000

  /** The placeholder payload text written after the header. */
  const DEMO_TEXT: string := "Cytrus Save State v1.0"

  /** The `strlen(demo_data)` bytes of the demo text, without its NUL. */
  const DEMO: seq<byte> :=
    [0x43, 0x79, 0x74, 0x72, 0x75, 0x73, 0x20, 0x53, 0x61, 0x76, 0x65,
     0x20, 0x53, 0x74, 0x61, 0x74, 0x65, 0x20, 0x76, 0x31, 0x2E, 0x30]

  /** The payload bytes spell the demo text, one byte per character. */
  lemma DemoIsText()
    ensures |DEMO| == |DEMO_TEXT| == 22
    ensures forall i | 0 <= i < |DEMO| :: DEMO[i] == DEMO_TEXT[i] as int
  {
  }

  function Zeros(n: nat): (z: seq<byte>)
    ensures |z| == n && forall i | 0 <= i < n :: z[i] == 0
  {
    seq(n, _ => 0)
  }

  // ---------------------------------------------------------------------
  // Header words

  /** A 32-bit word as its four bytes, least significant first. */
  function EncodeU32(v: uint32): (b: seq<byte>)
    ensures |b| == 4
  {
    [v % 0x100, (v / 0x100) % 0x100, (v / 0x1_0000) % 0x100, v / 0x100_0000]
  }

  function DecodeU32(b: seq<byte>): uint32
    requires |b| == 4
  {
    b[0] as int + b[1] as int * 0x100 + b[2] as int * 0x1_0000 + b[3] as int * 0x100_0000
  }

  lemma DecodeEncodeU32(v: uint32)
    ensures DecodeU32(EncodeU32(v)) == v
  {
  }

  lemma EncodeDecodeU32(b: seq<byte>)
    requires |b| == 4
    ensures EncodeU32(DecodeU32(b)) == b
  {
    var v := DecodeU32(b);
    assert v % 0x100 == b[0];
    assert v / 0x100 == b[1] as int + b[2] as int * 0x100 + b[3] as int * 0x1_0000;
    assert v / 0x1_0000 == b[2] as int + b[3] as int * 0x100;
    assert v / 0x100_0000 == b[3];
  }

  /** Different 4-byte words decode to different values. */
  lemma DecodeU32Injective(b: seq<byte>, c: seq<byte>)
    requires |b| == 4 && |c| == 4
    ensures b != c ==> DecodeU32(b) != DecodeU32(c)
  {
    EncodeDecodeU32(b);
    EncodeDecodeU32(c);
  }

  datatype Header = Header(magic: uint32, version: uint32, size: uint32, crc: uint32)

  function EncodeHeader(h: Header): (b: seq<byte>)
    ensures |b| == HEADER_SIZE
  {
    EncodeU32(h.magic) + EncodeU32(h.version) + EncodeU32(h.size) + EncodeU32(h.crc)
  }

  /** The `memcpy` of the first 16 bytes into a header. */
  function DecodeHeader(b: seq<byte>): Header
    requires HEADER_SIZE <= |b|
  {
    Header(DecodeU32(b[0..4]), DecodeU32(b[4..8]), DecodeU32(b[8..12]), DecodeU32(b[12..16]))
  }

  /** A header reads back from the front of any buffer that starts with it. */
  lemma HeaderRoundTrip(h: Header, rest: seq<byte>)
    ensures DecodeHeader(EncodeHeader(h) + rest) == h
  {
    var b := EncodeHeader(h) + rest;
    assert b[0..4] == EncodeU32(h.magic);
    assert b[4..8] == EncodeU32(h.version);
    assert b[8..12] == EncodeU32(h.size);
    assert b[12..16] == EncodeU32(h.crc);
    DecodeEncodeU32(h.magic);
    DecodeEncodeU32(h.version);
    DecodeEncodeU32(h.size);
    DecodeEncodeU32(h.crc);
  }

  // ---------------------------------------------------------------------
  // Serialisation

  /** The payload after the header: the demo text when it fits in the
      `n` payload bytes, then zeros. */
  function Payload(n: nat): (p: seq<byte>)
    ensures |p| == n
  {
    if |DEMO| <= n then DEMO + Zeros(n - |DEMO|) else Zeros(n)
  }

  /** The header `serialize` writes for a buffer of `size` bytes: the
      payload length narrowed to 32 bits, crc 0. */
  function HeaderFor(size: nat): Header
    requires HEADER_SIZE <= size
  {
    Header(MAGIC, VERSION, (size - HEADER_SIZE) % TWO_TO_THE_32, 0)
  }

  /** The `size` bytes a successful `serialize` leaves in the buffer. */
  function Image(size: nat): (b: seq<byte>)
    requires HEADER_SIZE <= size
    ensures |b| == size
    ensures b[..HEADER_SIZE] == EncodeHeader(HeaderFor(size))
    ensures HEADER_SIZE + |DEMO| <= size ==> b[HEADER_SIZE..HEADER_SIZE + |DEMO|] == DEMO
    ensures forall i | HEADER_SIZE <= i < size && !(HEADER_SIZE + |DEMO| <= size && i < HEADER_SIZE + |DEMO|) ::
      b[i] == 0
  {
    var b := EncodeHeader(HeaderFor(size)) + Payload(size - HEADER_SIZE);
    assert b[..HEADER_SIZE] == EncodeHeader(HeaderFor(size));
    assert HEADER_SIZE + |DEMO| <= size ==> b[HEADER_SIZE..HEADER_SIZE + |DEMO|] == DEMO;
    b
  }

  /** A span of buffer offsets `[start, end)` that the code writes. */
  datatype Span = Span(start: nat, end: nat)

  predicate WithinBuffer(writes: seq<Span>, size: nat)
  {
    forall i | 0 <= i < |writes| :: writes[i].end <= size
  }

  /** The writes of `cytrus_memory_serialize` as written, for a non-null
      buffer of `size > 0` bytes on a powered system: the `memset`, the
      header `memcpy`, and the demo text when `offset + demo_size < size`. */
  function WritesAsWritten(size: nat): seq<Span>
  {
    [Span(0, size), Span(0, HEADER_SIZE)]
      + if 0 + |DEMO| < size then [Span(HEADER_SIZE, HEADER_SIZE + |DEMO|)] else []
  }

  /** As written, `serialize` stays inside the caller's buffer only for
      sizes 16..22 and from 38 on: below 16 the header overruns the buffer,
      and for 23..37 the demo text does. */
  lemma SerializeAsWrittenOverruns(size: nat)
    requires 0 < size
    ensures WithinBuffer(WritesAsWritten(size), size) <==> 16 <= size <= 22 || 38 <= size
  {
    var w := WritesAsWritten(size);
    if !(16 <= size <= 22 || 38 <= size) {
      if size < 16 {
        assert w[1].end > size;
      } else {
        assert w[2].end > size;
      }
    }
  }

  /** `cytrus_memory_serialize` on the caller's `size`-byte buffer `data`,
      corrected to refuse buffers smaller than the header (see
      `SerializeAsWrittenOverruns`) and to write the demo text only when it
      fits; every write is an index into `data` below `size`. It fails for a
      null buffer, size 0 or a powered-off system; otherwise the buffer
      holds `Image(size)` and nothing past `size` changes. */
  method Serialize(data: array?<byte>, size: nat, powered: bool) returns (ok: bool)
    requires data != null ==> size <= data.Length
    modifies data
    ensures ok <==> data != null && size != 0 && powered && HEADER_SIZE <= size
    ensures ok ==> data[..size] == Image(size) && data[size..] == old(data[size..])
    ensures !ok && data != null ==> data[..] == old(data[..])
  {
    if data == null || size == 0 {
      return false;
    }
    if !powered {
      return false;
    }
    if size < HEADER_SIZE {
      return false;
    }
    forall i | 0 <= i < size {
      data[i] := 0;
    }
    var header := EncodeHeader(HeaderFor(size));
    forall i | 0 <= i < HEADER_SIZE {
      data[i] := header[i];
    }
    var demo := DEMO;
    if HEADER_SIZE + |demo| <= size {
      forall i | 0 <= i < |demo| {
        data[HEADER_SIZE + i] := demo[i];
      }
    }
    ghost var image := Image(size);
    assert forall i | 0 <= i < size :: data[i] == image[i] by {
      forall i | 0 <= i < size
        ensures data[i] == image[i]
      {
        if i < HEADER_SIZE {
          assert image[..HEADER_SIZE][i] == header[i];
        } else if HEADER_SIZE + |demo| <= size && i < HEADER_SIZE + |demo| {
          assert image[HEADER_SIZE..HEADER_SIZE + |demo|][i - HEADER_SIZE] == demo[i - HEADER_SIZE];
        }
      }
    }
    assert data[..size] == image;
    return true;
  }

  /** `cytrus_memory_unserialize`: the buffer (`None` for a null pointer;
      its size is the sequence's length) is checked in the source's order
      and accepted only if every check passes. */
  function Unserialize(data: Option<seq<byte>>, powered: bool): (ok: bool)
    ensures ok ==> powered && data.Some? && HEADER_SIZE <= |data.value|
  {
    if data.None? || |data.value| == 0 then false
    else if !powered then false
    else if |data.value| < HEADER_SIZE then false
    else
      var header := DecodeHeader(data.value);
      if header.magic != MAGIC then false
      else if header.version != VERSION then false
      else header.size + HEADER_SIZE == |data.value|
  }

  /** What `unserialize` accepts, stated on the bytes: a powered system and
      a buffer that starts with the magic and version words and whose third
      word is the number of bytes after the header. */
  lemma UnserializeAccepts(data: Option<seq<byte>>, powered: bool)
    ensures Unserialize(data, powered) <==>
      && data.Some? && powered && HEADER_SIZE <= |data.value|
      && data.value[0..4] == EncodeU32(MAGIC)
      && data.value[4..8] == EncodeU32(VERSION)
      && DecodeU32(data.value[8..12]) == |data.value| - HEADER_SIZE
  {
    if data.Some? && HEADER_SIZE <= |data.value| {
      var b := data.value;
      EncodeDecodeU32(b[0..4]);
      EncodeDecodeU32(b[4..8]);
      DecodeEncodeU32(MAGIC);
      DecodeEncodeU32(VERSION);
    }
  }

  /** A buffer `serialize` produced on a powered system reads back exactly
      when its payload length fits the 32-bit size field. */
  lemma {:induction false} RoundTrip(size: nat)
    requires HEADER_SIZE <= size
    ensures Unserialize(Some(Image(size)), true) <==> size - HEADER_SIZE < TWO_TO_THE_32
  {
    var b := Image(size);
    assert b == b[..HEADER_SIZE] + b[HEADER_SIZE..];
    HeaderRoundTrip(HeaderFor(size), b[HEADER_SIZE..]);
  }

  /** No buffer is accepted by a powered-off system. */
  lemma UnpoweredRejects(data: Option<seq<byte>>)
    ensures !Unserialize(data, false)
  {
  }

  /** Changing any byte of the magic makes an accepted buffer rejected. */
  lemma MagicCorruptionRejected(b: seq<byte>, i: nat, v: byte)
    requires Unserialize(Some(b), true)
    requires i < 4 && v != b[i]
    ensures !Unserialize(Some(b[i := v]), true)
  {
    var c := b[i := v];
    assert c[0..4][i] != b[0..4][i];
    DecodeU32Injective(c[0..4], b[0..4]);
  }

  // ---------------------------------------------------------------------
  // The snapshot slot

  /** `cytrus_memory_serialize_size`: the recorded estimate, or 0 on a
      powered-off system. */
  function SerializeSize(maxSize: nat, powered: bool): (n: nat)
    ensures n == 0 || n == maxSize
  {
    if !powered then 0 else maxSize
  }

  /** `std::vector::resize`: the kept prefix, then zeros. */
  function Resized(v: seq<byte>, n: nat): (r: seq<byte>)
    ensures |r| == n
    ensures forall i | 0 <= i < n :: r[i] == if i < |v| then v[i] else 0
  {
    if n <= |v| then v[..n] else v + Zeros(n - |v|)
  }

  /** The core's one snapshot: `max_save_state_size` and
      `save_state_buffer`. */
  class Snapshot {
    var maxSize: nat
    var saved: seq<byte>

    ghost predicate Valid()
      reads this
    {
      maxSize == 0 || maxSize == MAX_STATE_SIZE
    }

    constructor ()
      ensures Valid() && maxSize == 0 && saved == []
    {
      maxSize := 0;
      saved := [];
    }

    /** `cytrus_memory_init`: records the 64 MiB estimate. */
    method Init() returns (ok: bool)
      modifies this
      ensures Valid() && ok && maxSize == MAX_STATE_SIZE && saved == old(saved)
    {
      maxSize := MAX_STATE_SIZE;
      return true;
    }

    /** `cytrus_memory_deinit`: empties the snapshot. */
    method Deinit()
      requires Valid()
      modifies this
      ensures Valid() && saved == [] && maxSize == old(maxSize)
    {
      saved := [];
    }

    /** `cytrus_memory_restore_snapshot`. */
    function RestoreSnapshot(powered: bool): (ok: bool)
      reads this
      ensures |saved| == 0 ==> !ok
    {
      if |saved| == 0 then false else Unserialize(Some(saved), powered)
    }

    /** `cytrus_memory_create_snapshot`: the slot is resized to the state
        size and serialised into. It fails before `init` and on a
        powered-off system, leaving the slot as it was; otherwise the slot
        holds a state image that restores. */
    method CreateSnapshot(powered: bool) returns (ok: bool)
      requires Valid()
      modifies this
      ensures Valid() && maxSize == old(maxSize)
      ensures ok <==> powered && maxSize != 0
      ensures ok ==> saved == Image(MAX_STATE_SIZE) && RestoreSnapshot(true)
      ensures !ok ==> saved == old(saved)
    {
      var n := SerializeSize(maxSize, powered);
      if n == 0 {
        return false;
      }
      var resized := Resized(saved, n);
      var slot := new byte[n];
      forall i | 0 <= i < n {
        slot[i] := resized[i];
      }
      assert slot[..] == resized;
      ok := Serialize(slot, n, powered);
      assert slot[..] == slot[..n];
      saved := slot[..];
      RoundTrip(n);
    }
  }

  // ---------------------------------------------------------------------
  // Memory regions

  /** libretro's memory ids. */
  const RETRO_MEMORY_SAVE_RAM: nat := 0
  const RETRO_MEMORY_RTC: nat := 1
  const RETRO_MEMORY_SYSTEM_RAM: nat := 2
  const RETRO_MEMORY_VIDEO_RAM: nat := 3

  /** A host address; regions the emulator has not connected have none. */
  type Address = nat

  datatype Region = Region(name: string, size: nat, data: Option<Address>)

  /** The static `memory_regions` table: four named regions, none connected. */
  const REGIONS: seq<Region> := [
    Region("System RAM", 0, None),
    Region("VRAM", 0, None),
    Region("DSP RAM", 0, None),
    Region("Save RAM", 0, None)
  ]

  /** The table entry `get_data` and `get_size` consult for a libretro id. */
  function RegionIndex(id: nat): (k: Option<nat>)
    ensures k.Some? <==> id == RETRO_MEMORY_SYSTEM_RAM || id == RETRO_MEMORY_VIDEO_RAM || id == RETRO_MEMORY_SAVE_RAM
    ensures k.Some? ==> k.value < 3
  {
    if id == RETRO_MEMORY_SYSTEM_RAM then Some(0)
    else if id == RETRO_MEMORY_VIDEO_RAM then Some(1)
    else if id == RETRO_MEMORY_SAVE_RAM then Some(2)
    else None
  }

  /** Distinct libretro ids reach distinct regions. */
  lemma RegionIndexInjective(id: nat, id': nat)
    requires RegionIndex(id).Some? && RegionIndex(id) == RegionIndex(id')
    ensures id == id'
  {
  }

  /** `cytrus_memory_get_data` over a region table. */
  function GetData(regions: seq<Region>, id: nat): (d: Option<Address>)
    requires |regions| == 4
    ensures RegionIndex(id).None? ==> d.None?
  {
    match RegionIndex(id)
    case None => None
    case Some(k) => regions[k].data
  }

  /** `cytrus_memory_get_size` over a region table. */
  function GetSize(regions: seq<Region>, id: nat): (n: nat)
    requires |regions| == 4
    ensures RegionIndex(id).None? ==> n == 0
  {
    match RegionIndex(id)
    case None => 0
    case Some(k) => regions[k].size
  }

  /** Save RAM is served from the table's third entry, the one named
      "DSP RAM"; the entry named "Save RAM" is reached by no id; and with
      the static table every id yields no data and size 0. */
  lemma SaveRamMapping(id: nat)
    ensures REGIONS[RegionIndex(RETRO_MEMORY_SAVE_RAM).value].name == "DSP RAM"
    ensures RegionIndex(id) != Some(3)
    ensures GetData(REGIONS, id).None? && GetSize(REGIONS, id) == 0
  {
  }

  /** `cytrus_memory_get_region_info`: for an index past the table each
      non-null out-parameter is cleared; otherwise it receives the entry's
      field. */
  method GetRegionInfo(regions: seq<Region>, id: nat,
                       name: Cell?<Option<string>>, size: Cell?<nat>, data: Cell?<Option<Address>>)
    requires |regions| == 4
    modifies name, size, data
    ensures name != null ==> name.value == if id < 4 then Some(regions[id].name) else None
    ensures size != null ==> size.value == if id < 4 then regions[id].size else 0
    ensures data != null ==> data.value == if id < 4 then regions[id].data else None
  {
    if id >= |regions| {
      if name != null { name.value := None; }
      if size != null { size.value := 0; }
      if data != null { data.value := None; }
      return;
    }
    if name != null { name.value := Some(regions[id].name); }
    if size != null { size.value := regions[id].size; }
    if data != null { data.value := regions[id].data; }
  }
}
