/** The byte-level walk that finds the timestamp section of a macOS executable (codesign_bin.cpp), and
    the images it walks: an encoder from an abstract Mach-O file to bytes. A pointer into the mapped
    file is an index, NULL is None. The layout is that of mach-o/loader.h and mach-o/fat.h ("OS X ABI
    Mach-O File Format Reference", "Load Command Data Structures"). */
module MachO {
  import opened Options

  type Byte = b: int | 0 <= b < 256
  type Word = w: int | 0 <= w < 0x1_0000_0000
  type Bytes = seq<Byte>

  const MH_MAGIC: Word := 0xfeedface
  const MH_MAGIC_64: Word := 0xfeedfacf
  const LC_SEGMENT: Word := 0x1
  const LC_SEGMENT_64: Word := 0x19
  const CPU_TYPE_X86: Word := 7
  const CPU_TYPE_X86_64: Word := 0x0100_0007

  const NAME_SIZE := 16
  const SEGCMD_SIZE := 24
  const FAT_HEADER_SIZE := 8
  const FAT_ARCH_SIZE := 20

  /** A uint32_t that is returned as int or stored in an int32_t. */
  function ToInt32(w: Word): (r: int)
    ensures -0x8000_0000 <= r < 0x8000_0000
  {
    if w < 0x8000_0000 then w else w - 0x1_0000_0000
  }

  // ------------------------------------------------------------------- words

  /** The i-th byte of a number, counted from the least significant. */
  function Digit(w: nat, i: nat): Byte {
    if i == 0 then w % 256 else Digit(w / 256, i - 1)
  }

  function LittleEndian(w: Word): (s: Bytes)
    ensures |s| == 4
  {
    seq(4, i requires 0 <= i < 4 => Digit(w, i))
  }

  function BigEndian(w: Word): (s: Bytes)
    ensures |s| == 4
  {
    seq(4, i requires 0 <= i < 4 => Digit(w, 3 - i))
  }

  lemma FourDigits(w: Word)
    ensures w == Digit(w, 0) as int + 0x100 * (Digit(w, 1) as int)
                 + 0x1_0000 * (Digit(w, 2) as int) + 0x100_0000 * (Digit(w, 3) as int)
  {
    var b := w / 256;
    var c := b / 256;
    var d := c / 256;
    assert w == 256 * b + Digit(w, 0) as int;
    assert b == 256 * c + Digit(b, 0) as int && Digit(w, 1) == Digit(b, 0);
    assert c == 256 * d + Digit(c, 0) as int && Digit(w, 2) == Digit(b, 1) == Digit(c, 0);
    assert d == Digit(d, 0) as int && Digit(w, 3) == Digit(b, 2) == Digit(c, 1) == Digit(d, 0);
  }

  /** memcpy of a uint32_t on the (little-endian) machine. */
  function ReadWord(buf: Bytes, at: nat): Word
    requires at + 4 <= |buf|
  {
    buf[at] as int + 0x100 * (buf[at + 1] as int) + 0x1_0000 * (buf[at + 2] as int) + 0x100_0000 * (buf[at + 3] as int)
  }

  /** The same followed by ntohl. */
  function ReadNetworkWord(buf: Bytes, at: nat): Word
    requires at + 4 <= |buf|
  {
    0x100_0000 * (buf[at] as int) + 0x1_0000 * (buf[at + 1] as int) + 0x100 * (buf[at + 2] as int) + buf[at + 3] as int
  }

  /** `part` lies in `buf` at index `at`. */
  predicate Holds(buf: Bytes, at: nat, part: Bytes)
    ensures Holds(buf, at, part) ==> part == [] || at + |part| <= |buf|
    decreases |part|
  {
    part == [] || (at < |buf| && buf[at] == part[0] && Holds(buf, at + 1, part[1..]))
  }

  lemma {:induction false} HoldsAt(buf: Bytes, at: nat, part: Bytes, i: nat)
    requires Holds(buf, at, part) && i < |part|
    ensures at + |part| <= |buf| && buf[at + i] == part[i]
    decreases i
  {
    if i > 0 {
      HoldsAt(buf, at + 1, part[1..], i - 1);
    }
  }

  lemma {:induction false} HoldsSplit(buf: Bytes, at: nat, a: Bytes, b: Bytes)
    requires Holds(buf, at, a + b)
    ensures Holds(buf, at, a) && Holds(buf, at + |a|, b)
    decreases |a|
  {
    if a == [] {
      assert a + b == b;
    } else {
      assert (a + b)[1..] == a[1..] + b;
      HoldsSplit(buf, at + 1, a[1..], b);
    }
  }

  lemma HoldsSplit4(buf: Bytes, at: nat, a: Bytes, b: Bytes, c: Bytes, d: Bytes)
    requires Holds(buf, at, a + (b + (c + d)))
    ensures Holds(buf, at, a) && Holds(buf, at + |a|, b)
    ensures Holds(buf, at + |a| + |b|, c) && Holds(buf, at + |a| + |b| + |c|, d)
  {
    HoldsSplit(buf, at, a, b + (c + d));
    HoldsSplit(buf, at + |a|, b, c + d);
    HoldsSplit(buf, at + |a| + |b|, c, d);
  }

  // ------------------------------------------------------------- concatenations

  function Concat(parts: seq<Bytes>): Bytes {
    if parts == [] then [] else parts[0] + Concat(parts[1..])
  }

  /** The bytes taken by the first k parts. */
  function Before(parts: seq<Bytes>, k: nat): nat
    requires k <= |parts|
  {
    if k == 0 then 0 else |parts[0]| + Before(parts[1..], k - 1)
  }

  lemma {:induction false} BeforeNext(parts: seq<Bytes>, k: nat)
    requires k < |parts|
    ensures Before(parts, k + 1) == Before(parts, k) + |parts[k]|
    decreases k
  {
    if k > 0 {
      BeforeNext(parts[1..], k - 1);
    }
  }

  lemma {:induction false} PartIsHeld(buf: Bytes, at: nat, parts: seq<Bytes>, k: nat)
    requires Holds(buf, at, Concat(parts)) && k < |parts|
    ensures Holds(buf, at + Before(parts, k), parts[k])
    ensures Before(parts, k) + |parts[k]| <= |Concat(parts)|
    decreases k
  {
    HoldsSplit(buf, at, parts[0], Concat(parts[1..]));
    if k > 0 {
      PartIsHeld(buf, at + |parts[0]|, parts[1..], k - 1);
    }
  }

  lemma HoldsFour(buf: Bytes, at: nat, s: Bytes)
    requires Holds(buf, at, s) && |s| == 4
    ensures at + 4 <= |buf| && buf[at] == s[0] && buf[at + 1] == s[1] && buf[at + 2] == s[2] && buf[at + 3] == s[3]
  {
    HoldsAt(buf, at, s, 0);
    HoldsAt(buf, at, s, 1);
    HoldsAt(buf, at, s, 2);
    HoldsAt(buf, at, s, 3);
  }

  lemma HeldWord(buf: Bytes, at: nat, w: Word)
    requires Holds(buf, at, LittleEndian(w))
    ensures at + 4 <= |buf| && ReadWord(buf, at) == w
  {
    FourDigits(w);
    HoldsFour(buf, at, LittleEndian(w));
  }

  lemma HeldNetworkWord(buf: Bytes, at: nat, w: Word)
    requires Holds(buf, at, BigEndian(w))
    ensures at + 4 <= |buf| && ReadNetworkWord(buf, at) == w
  {
    FourDigits(w);
    HoldsFour(buf, at, BigEndian(w));
  }

  // ------------------------------------------------------------------- names

  /** A name as it can stand in a 16-byte field. */
  predicate IsName(name: Bytes) {
    |name| <= NAME_SIZE && 0 !in name
  }

  /** A name that can be searched for: strcmp finds its end inside the field. */
  predicate IsSearchName(name: Bytes) {
    |name| < NAME_SIZE && 0 !in name
  }

  function Padded(name: Bytes): (s: Bytes)
    requires IsName(name)
    ensures |s| == NAME_SIZE
  {
    seq(NAME_SIZE, i requires 0 <= i < NAME_SIZE => if i < |name| then name[i] else 0)
  }

  /** strcmp(field, name) == 0 for the field at index `at`: it compares up to the NUL of `name`. */
  predicate SameString(buf: Bytes, at: nat, name: Bytes)
    requires at + |name| < |buf|
  {
    (forall i :: 0 <= i < |name| ==> buf[at + i] == name[i]) && buf[at + |name|] == 0
  }

  /** A field of all 16 bytes without a NUL is still compared rightly, because the searched name ends
      earlier. */
  lemma HeldName(buf: Bytes, at: nat, field: Bytes, name: Bytes)
    requires IsName(field) && IsSearchName(name) && Holds(buf, at, Padded(field))
    ensures at + NAME_SIZE <= |buf|
    ensures SameString(buf, at, name) <==> field == name
  {
    var p := Padded(field);
    forall i | 0 <= i < NAME_SIZE ensures at + NAME_SIZE <= |buf| && buf[at + i] == p[i] {
      HoldsAt(buf, at, p, i);
    }
    assert forall i :: 0 <= i < |field| ==> p[i] == field[i];
    assert buf[at + |name|] == p[|name|] && (|field| < NAME_SIZE ==> p[|field|] == 0);
    if SameString(buf, at, name) {
      assert forall i :: 0 <= i < |name| ==> buf[at + i] == name[i] && p[i] == name[i];
    }
  }

  // ------------------------------------------------------------------ images

  /** struct section and struct section_64: the address and the size have 4 or 8 bytes, and reserved3 exists in the
      wide one only. */
  datatype Section = Section(
    name: Bytes, segname: Bytes, addr: Bytes, size: Bytes, offset: Word, align: Word, reloff: Word, nreloc: Word,
    flags: Word, reserved1: Word, reserved2: Word, reserved3: Word)

  /** The fields of struct segment_command and struct segment_command_64 behind the name. */
  datatype SegmentFields = SegmentFields(
    vmaddr: Bytes, vmsize: Bytes, fileoff: Bytes, filesize: Bytes,
    maxprot: Word, initprot: Word, nsects: Word, flags: Word)

  /** A load command: a segment of the image's own width, or anything else. */
  datatype Command =
    | Segment(name: Bytes, fields: SegmentFields, sections: seq<Section>)
    | Other(cmd: Word, payload: Bytes)

  /** The fields of struct mach_header and struct mach_header_64 besides magic and ncmds; reserved exists in the wide
      one only. */
  datatype HeaderFields = HeaderFields(
    cputype: Word, cpusubtype: Word, filetype: Word, sizeofcmds: Word, flags: Word, reserved: Word)

  /** A thin image; `tail` stands for the rest of the file. */
  datatype Image = Image(wide: bool, header: HeaderFields, commands: seq<Command>, tail: Bytes)

  function MagicOf(wide: bool): Word { if wide then MH_MAGIC_64 else MH_MAGIC }
  function SegmentCmd(wide: bool): Word { if wide then LC_SEGMENT_64 else LC_SEGMENT }
  function HeaderSize(wide: bool): nat { if wide then 32 else 28 }
  function SegSkip(wide: bool): nat { if wide then 72 else 56 }
  function SecSize(wide: bool): nat { if wide then 80 else 68 }
  function SectionsSize(n: nat, wide: bool): nat { if wide then 80 * n else 68 * n }
  function OffsetField(wide: bool): nat { if wide then 48 else 40 }

  /** The size of an address: uint64_t or uint32_t. */
  function AddressSize(wide: bool): nat { if wide then 8 else 4 }

  predicate SectionWf(s: Section, wide: bool) {
    IsName(s.name) && IsName(s.segname) && |s.addr| == |s.size| == AddressSize(wide)
  }

  predicate SegmentFieldsWf(f: SegmentFields, wide: bool) {
    |f.vmaddr| == |f.vmsize| == |f.fileoff| == |f.filesize| == AddressSize(wide)
  }

  predicate CommandWf(c: Command, wide: bool) {
    match c
    case Segment(name, fields, sections) =>
      && IsName(name) && SegmentFieldsWf(fields, wide)
      && SegSkip(wide) + SectionsSize(|sections|, wide) < 0x1_0000_0000
      && forall s :: s in sections ==> SectionWf(s, wide)
    case Other(cmd, payload) =>
      cmd != LC_SEGMENT && cmd != LC_SEGMENT_64 && 8 + |payload| < 0x1_0000_0000
  }

  predicate Encodable(im: Image) {
    && |im.commands| < 0x1_0000_0000
    && forall c :: c in im.commands ==> CommandWf(c, im.wide)
  }

  /** The fields between the name and the offset. */
  function BeforeOffset(s: Section, wide: bool): (e: Bytes)
    requires SectionWf(s, wide)
    ensures NAME_SIZE + |e| == OffsetField(wide)
  {
    Padded(s.segname) + (s.addr + s.size)
  }

  /** The fields behind the offset. */
  function BehindOffset(s: Section, wide: bool): (e: Bytes)
    ensures OffsetField(wide) + 4 + |e| == SecSize(wide)
  {
    LittleEndian(s.align) + (LittleEndian(s.reloff) + (LittleEndian(s.nreloc) + (LittleEndian(s.flags)
      + (LittleEndian(s.reserved1) + (LittleEndian(s.reserved2)
      + if wide then LittleEndian(s.reserved3) else [])))))
  }

  /** A section, field by field in the order of the structure. */
  function EncodeSection(s: Section, wide: bool): (e: Bytes)
    requires SectionWf(s, wide)
    ensures |e| == SecSize(wide)
  {
    Padded(s.name) + (BeforeOffset(s, wide) + (LittleEndian(s.offset) + BehindOffset(s, wide)))
  }

  function EncodeSegmentFields(f: SegmentFields, wide: bool): (e: Bytes)
    requires SegmentFieldsWf(f, wide)
    ensures SEGCMD_SIZE + |e| == SegSkip(wide)
  {
    f.vmaddr + (f.vmsize + (f.fileoff + (f.filesize
      + (LittleEndian(f.maxprot) + (LittleEndian(f.initprot) + (LittleEndian(f.nsects) + LittleEndian(f.flags)))))))
  }

  function SectionParts(ss: seq<Section>, wide: bool): (parts: seq<Bytes>)
    requires forall s :: s in ss ==> SectionWf(s, wide)
    ensures |parts| == |ss|
  {
    seq(|ss|, i requires 0 <= i < |ss| => EncodeSection(ss[i], wide))
  }

  function EncodeSections(ss: seq<Section>, wide: bool): Bytes
    requires forall s :: s in ss ==> SectionWf(s, wide)
  {
    Concat(SectionParts(ss, wide))
  }

  lemma {:induction false} UniformSize(parts: seq<Bytes>, k: nat, wide: bool)
    requires k <= |parts| && forall i :: 0 <= i < |parts| ==> |parts[i]| == SecSize(wide)
    ensures Before(parts, k) == SectionsSize(k, wide) && |Concat(parts)| == SectionsSize(|parts|, wide)
    decreases |parts|
  {
    if parts != [] {
      UniformSize(parts[1..], if k == 0 then 0 else k - 1, wide);
    }
  }

  function CommandSize(c: Command, wide: bool): nat {
    match c
    case Segment(_, _, sections) => SegSkip(wide) + SectionsSize(|sections|, wide)
    case Other(_, payload) => 8 + |payload|
  }

  function EncodeCommand(c: Command, wide: bool): (e: Bytes)
    requires CommandWf(c, wide)
    ensures |e| == CommandSize(c, wide)
  {
    match c
    case Segment(name, fields, sections) =>
      UniformSize(SectionParts(sections, wide), 0, wide);
      LittleEndian(SegmentCmd(wide)) + (LittleEndian(CommandSize(c, wide))
        + (Padded(name) + (EncodeSegmentFields(fields, wide) + EncodeSections(sections, wide))))
    case Other(cmd, payload) => LittleEndian(cmd) + (LittleEndian(CommandSize(c, wide)) + (payload + []))
  }

  function CommandParts(cs: seq<Command>, wide: bool): (parts: seq<Bytes>)
    requires forall c :: c in cs ==> CommandWf(c, wide)
    ensures |parts| == |cs| && forall i :: 0 <= i < |cs| ==> |parts[i]| == CommandSize(cs[i], wide)
  {
    seq(|cs|, i requires 0 <= i < |cs| => EncodeCommand(cs[i], wide))
  }

  function EncodeCommands(cs: seq<Command>, wide: bool): Bytes
    requires forall c :: c in cs ==> CommandWf(c, wide)
  {
    Concat(CommandParts(cs, wide))
  }

  /** The header's fields between magic and ncmds, and behind them. */
  function BeforeCount(h: HeaderFields): (e: Bytes)
    ensures |e| == 12
  {
    LittleEndian(h.cputype) + (LittleEndian(h.cpusubtype) + LittleEndian(h.filetype))
  }

  function BehindCount(h: HeaderFields, wide: bool): (e: Bytes)
    ensures 20 + |e| == HeaderSize(wide)
  {
    LittleEndian(h.sizeofcmds) + (LittleEndian(h.flags) + if wide then LittleEndian(h.reserved) else [])
  }

  function Encode(im: Image): Bytes
    requires Encodable(im)
  {
    LittleEndian(MagicOf(im.wide)) + (BeforeCount(im.header) + (LittleEndian(|im.commands|)
      + (BehindCount(im.header, im.wide) + (EncodeCommands(im.commands, im.wide) + im.tail))))
  }

  // ------------------------------------------------------------------ the layout

  /** The bytes of a word, the least significant first, and in network order the most significant. */
  lemma WordBytes(w: Word)
    ensures
      var s, n := LittleEndian(w), BigEndian(w);
      && w == s[0] as int + 0x100 * (s[1] as int) + 0x1_0000 * (s[2] as int) + 0x100_0000 * (s[3] as int)
      && n == [s[3], s[2], s[1], s[0]]
  {
    FourDigits(w);
  }

  lemma HeldWhole(e: Bytes)
    ensures Holds(e, 0, e)
  {
    SuffixIsHeld(e, 0);
    assert e[0..] == e;
  }

  /** Where the fields of a section are, by the offsets that mach-o/loader.h gives them. */
  lemma SectionLayout(s: Section, wide: bool)
    requires SectionWf(s, wide)
    ensures
      var e := EncodeSection(s, wide);
      && |e| == (if wide then 80 else 68)
      && Holds(e, 0, Padded(s.name)) && Holds(e, 16, Padded(s.segname)) && Holds(e, 32, s.addr)
      && (if wide
          then Holds(e, 40, s.size) && Holds(e, 48, LittleEndian(s.offset)) && Holds(e, 52, LittleEndian(s.align))
          else Holds(e, 36, s.size) && Holds(e, 40, LittleEndian(s.offset)) && Holds(e, 44, LittleEndian(s.align)))
  {
    var e := EncodeSection(s, wide);
    HeldWhole(e);
    HoldsSplit4(e, 0, Padded(s.name), BeforeOffset(s, wide), LittleEndian(s.offset), BehindOffset(s, wide));
    HoldsSplit(e, 16, Padded(s.segname), s.addr + s.size);
    HoldsSplit(e, 32, s.addr, s.size);
    HoldsSplit(e, OffsetField(wide) + 4, LittleEndian(s.align),
      LittleEndian(s.reloff) + (LittleEndian(s.nreloc) + (LittleEndian(s.flags)
        + (LittleEndian(s.reserved1) + (LittleEndian(s.reserved2)
        + if wide then LittleEndian(s.reserved3) else [])))));
  }

  lemma FourBytes(w: Word, a: Byte, b: Byte, c: Byte, d: Byte)
    requires w == a as int + 0x100 * (b as int + 0x100 * (c as int + 0x100 * d as int))
    ensures LittleEndian(w) == [a, b, c, d]
  {
    var w1 := b as int + 0x100 * (c as int + 0x100 * d as int);
    var w2 := c as int + 0x100 * d as int;
    assert w % 256 == a && w / 256 == w1;
    assert w1 % 256 == b && w1 / 256 == w2;
    assert w2 % 256 == c && w2 / 256 == d;
    assert Digit(w, 1) == Digit(w1, 0) && Digit(w, 2) == Digit(w1, 1) == Digit(w2, 0);
    assert Digit(w, 3) == Digit(w1, 2) == Digit(w2, 1) == Digit(d, 0);
  }

  lemma SegmentCmdBytes(wide: bool)
    ensures LittleEndian(SegmentCmd(wide)) == if wide then [0x19, 0, 0, 0] else [1, 0, 0, 0]
  {
    FourBytes(SegmentCmd(wide), if wide then 0x19 else 1, 0, 0, 0);
  }

  lemma MagicBytes(wide: bool)
    ensures LittleEndian(MagicOf(wide)) == if wide then [0xcf, 0xfa, 0xed, 0xfe] else [0xce, 0xfa, 0xed, 0xfe]
  {
    FourBytes(MagicOf(wide), if wide then 0xcf else 0xce, 0xfa, 0xed, 0xfe);
  }

  lemma BeforeCountLayout(e: Bytes, at: nat, h: HeaderFields)
    requires Holds(e, at, BeforeCount(h))
    ensures Holds(e, at, LittleEndian(h.cputype)) && Holds(e, at + 8, LittleEndian(h.filetype))
  {
    HoldsSplit(e, at, LittleEndian(h.cputype), LittleEndian(h.cpusubtype) + LittleEndian(h.filetype));
    HoldsSplit(e, at + 4, LittleEndian(h.cpusubtype), LittleEndian(h.filetype));
  }

  lemma BehindCountLayout(e: Bytes, at: nat, h: HeaderFields, wide: bool)
    requires Holds(e, at, BehindCount(h, wide))
    ensures Holds(e, at, LittleEndian(h.sizeofcmds))
  {
    HoldsSplit(e, at, LittleEndian(h.sizeofcmds),
      LittleEndian(h.flags) + if wide then LittleEndian(h.reserved) else []);
  }

  lemma SegmentFieldsLayout(e: Bytes, at: nat, f: SegmentFields, wide: bool)
    requires SegmentFieldsWf(f, wide) && Holds(e, at, EncodeSegmentFields(f, wide))
    ensures Holds(e, at, f.vmaddr)
  {
    HoldsSplit(e, at, f.vmaddr, f.vmsize + (f.fileoff + (f.filesize
      + (LittleEndian(f.maxprot) + (LittleEndian(f.initprot) + (LittleEndian(f.nsects) + LittleEndian(f.flags)))))));
  }

  /** Parts of the sizes 4, 12 and 4, and what follows them. */
  lemma HeaderParts(e: Bytes, magic: Bytes, before: Bytes, count: Bytes, behind: Bytes, cmds: Bytes, tail: Bytes)
    requires |magic| == |count| == 4 && |before| == 12
    requires Holds(e, 0, magic + (before + (count + (behind + (cmds + tail)))))
    ensures Holds(e, 0, magic) && Holds(e, 4, before) && Holds(e, 16, count)
    ensures Holds(e, 20, behind) && Holds(e, 20 + |behind|, cmds)
  {
    HoldsSplit4(e, 0, magic, before, count, behind + (cmds + tail));
    HoldsSplit(e, 20, behind, cmds + tail);
    HoldsSplit(e, 20 + |behind|, cmds, tail);
  }

  lemma SegmentParts(e: Bytes, cmd: Bytes, size: Bytes, name: Bytes, fields: Bytes, sections: Bytes)
    requires |cmd| == |size| == 4 && |name| == 16
    requires Holds(e, 0, cmd + (size + (name + (fields + sections))))
    ensures Holds(e, 0, cmd) && Holds(e, 4, size) && Holds(e, 8, name) && Holds(e, 24, fields)
    ensures Holds(e, 24 + |fields|, sections)
  {
    HoldsSplit4(e, 0, cmd, size, name, fields + sections);
    HoldsSplit(e, 24, fields, sections);
  }

  /** The same for a segment command. */
  lemma SegmentLayout(c: Command, wide: bool)
    requires CommandWf(c, wide) && c.Segment?
    ensures
      var e := EncodeCommand(c, wide);
      && Holds(e, 0, if wide then [0x19, 0, 0, 0] else [1, 0, 0, 0]) && Holds(e, 4, LittleEndian(|e|))
      && Holds(e, 8, Padded(c.name)) && Holds(e, 24, c.fields.vmaddr)
      && Holds(e, if wide then 72 else 56, EncodeSections(c.sections, wide))
  {
    var e := EncodeCommand(c, wide);
    var fields := EncodeSegmentFields(c.fields, wide);
    SegmentCmdBytes(wide);
    HeldWhole(e);
    SegmentParts(e, LittleEndian(SegmentCmd(wide)), LittleEndian(CommandSize(c, wide)), Padded(c.name), fields,
      EncodeSections(c.sections, wide));
    SegmentFieldsLayout(e, 24, c.fields, wide);
  }

  /** ... and for the header: a thin file starts with cf fa ed fe or ce fa ed fe. */
  lemma HeaderLayout(im: Image)
    requires Encodable(im)
    ensures
      var e := Encode(im);
      && Holds(e, 0, if im.wide then [0xcf, 0xfa, 0xed, 0xfe] else [0xce, 0xfa, 0xed, 0xfe])
      && Holds(e, 4, LittleEndian(im.header.cputype)) && Holds(e, 12, LittleEndian(im.header.filetype))
      && Holds(e, 16, LittleEndian(|im.commands|)) && Holds(e, 20, LittleEndian(im.header.sizeofcmds))
      && Holds(e, if im.wide then 32 else 28, EncodeCommands(im.commands, im.wide))
  {
    var e, h := Encode(im), im.header;
    var magic, count, cmds := LittleEndian(MagicOf(im.wide)), LittleEndian(|im.commands|),
      EncodeCommands(im.commands, im.wide);
    HeldWhole(e);
    assert Holds(e, 0, magic + (BeforeCount(h) + (count + (BehindCount(h, im.wide) + (cmds + im.tail)))));
    HeaderParts(e, magic, BeforeCount(h), count, BehindCount(h, im.wide), cmds, im.tail);
    BeforeCountLayout(e, 4, h);
    BehindCountLayout(e, 20, h, im.wide);
    MagicBytes(im.wide);
  }

  // ------------------------------------------------------- the abstract search

  predicate NamesSegment(c: Command, seg: Bytes) {
    c.Segment? && c.name == seg
  }

  /** The walk comes to the k-th command when none before it is the segment it looks for. */
  predicate Visited(cs: seq<Command>, k: int, seg: Bytes) {
    0 <= k < |cs| && forall j :: 0 <= j < k ==> !NamesSegment(cs[j], seg)
  }

  /** The walk copies 24 bytes at every command it comes to, however short it is. A segment is longer than that,
      so only a file without the segment must go on that far behind the start of its last command. */
  predicate HasRoom(im: Image, seg: Bytes) {
    im.commands != [] && (forall c :: c in im.commands ==> !NamesSegment(c, seg)) ==>
      CommandSize(im.commands[|im.commands| - 1], im.wide) + |im.tail| >= SEGCMD_SIZE
  }

  predicate ImageWf(im: Image, seg: Bytes) {
    Encodable(im) && HasRoom(im, seg)
  }

  predicate FirstSegment(cs: seq<Command>, k: int, seg: Bytes) {
    0 <= k < |cs| && NamesSegment(cs[k], seg) && forall j :: 0 <= j < k ==> !NamesSegment(cs[j], seg)
  }

  predicate NoneNamed(ss: seq<Section>, k: int, sec: Bytes)
    requires k <= |ss|
  {
    forall j :: 0 <= j < k ==> ss[j].name != sec
  }

  predicate FirstSection(ss: seq<Section>, k: int, sec: Bytes) {
    0 <= k < |ss| && ss[k].name == sec && NoneNamed(ss, k, sec)
  }

  /** Bytes taken by the first k commands. */
  function StartOf(cs: seq<Command>, k: nat, wide: bool): nat
    requires k <= |cs|
  {
    if k == 0 then 0 else StartOf(cs, k - 1, wide) + CommandSize(cs[k - 1], wide)
  }

  /** What a reader of the abstract image would answer: the offset of the first section named `sec` in
      the first segment named `seg`, if both exist. */
  ghost predicate IsTimestamp(im: Image, seg: Bytes, sec: Bytes, offset: Word) {
    exists i, k ::
      && FirstSegment(im.commands, i, seg)
      && FirstSection(im.commands[i].sections, k, sec)
      && im.commands[i].sections[k].offset == offset
  }

  // ------------------------------------------------------------------ the walk

  lemma HeldSegment(buf: Bytes, at: nat, cmd: Word, size: Word, name: Bytes, fields: Bytes, secs: Bytes)
    requires |name| == NAME_SIZE
    requires Holds(buf, at, LittleEndian(cmd) + (LittleEndian(size) + (name + (fields + secs))))
    ensures at + 8 <= |buf| && ReadWord(buf, at) == cmd && ReadWord(buf, at + 4) == size
    ensures Holds(buf, at + 8, name) && Holds(buf, at + SEGCMD_SIZE + |fields|, secs)
  {
    HoldsSplit4(buf, at, LittleEndian(cmd), LittleEndian(size), name, fields + secs);
    HoldsSplit(buf, at + SEGCMD_SIZE, fields, secs);
    HeldWord(buf, at, cmd);
    HeldWord(buf, at + 4, size);
  }

  /** memcpy(&segcmd): cmd, cmdsize and the name are readable at a command's start. */
  lemma HeldCommand(buf: Bytes, at: nat, c: Command, wide: bool)
    requires CommandWf(c, wide) && Holds(buf, at, EncodeCommand(c, wide))
    ensures at + 8 <= |buf|
    ensures ReadWord(buf, at) == if c.Segment? then SegmentCmd(wide) else c.cmd
    ensures ReadWord(buf, at + 4) == CommandSize(c, wide)
    ensures c.Segment? ==> Holds(buf, at + 8, Padded(c.name))
    ensures c.Segment? ==> Holds(buf, at + SegSkip(wide), EncodeSections(c.sections, wide))
  {
    var size := CommandSize(c, wide);
    match c
    case Segment(name, fields, sections) =>
      HeldSegment(buf, at, SegmentCmd(wide), size, Padded(name), EncodeSegmentFields(fields, wide),
                  EncodeSections(sections, wide));
    case Other(cmd, payload) =>
      HoldsSplit4(buf, at, LittleEndian(cmd), LittleEndian(size), payload, []);
      HeldWord(buf, at, cmd);
      HeldWord(buf, at + 4, size);
  }

  lemma HeldSection(buf: Bytes, at: nat, s: Section, wide: bool, sec: Bytes)
    requires SectionWf(s, wide) && Holds(buf, at, EncodeSection(s, wide)) && IsSearchName(sec)
    ensures SameString(buf, at, sec) <==> s.name == sec
    ensures ReadWord(buf, at + OffsetField(wide)) == s.offset
  {
    HoldsSplit4(buf, at, Padded(s.name), BeforeOffset(s, wide), LittleEndian(s.offset), BehindOffset(s, wide));
    HeldName(buf, at, s.name, sec);
    HeldWord(buf, at + OffsetField(wide), s.offset);
  }

  /** What the walk reads at a section of the image. */
  predicate SectionReads(buf: Bytes, at: nat, s: Section, wide: bool, sec: Bytes)
    requires IsSearchName(sec)
  {
    && at + SecSize(wide) <= |buf|
    && (SameString(buf, at, sec) <==> s.name == sec)
    && ReadWord(buf, at + OffsetField(wide)) == s.offset
  }

  lemma SectionIsReadable(buf: Bytes, at: nat, ss: seq<Section>, k: nat, wide: bool, sec: Bytes)
    requires (forall s :: s in ss ==> SectionWf(s, wide)) && IsSearchName(sec) && k < |ss|
    requires Holds(buf, at, EncodeSections(ss, wide))
    ensures SectionReads(buf, at + SectionsSize(k, wide), ss[k], wide, sec)
  {
    var parts := SectionParts(ss, wide);
    PartIsHeld(buf, at, parts, k);
    UniformSize(parts, k, wide);
    HeldSection(buf, at + SectionsSize(k, wide), ss[k], wide, sec);
  }

  /** (cmdsize - SEGSKIP(cmd)) / SECSIZE(cmd), in unsigned arithmetic. */
  function SectionCount(cmd: Word, cmdsize: Word): nat {
    if cmd == LC_SEGMENT then (cmdsize - 56) % 0x1_0000_0000 / 68 else (cmdsize - 72) % 0x1_0000_0000 / 80
  }

  lemma CountsSections(n: nat, wide: bool)
    requires SegSkip(wide) + SectionsSize(n, wide) < 0x1_0000_0000
    ensures SectionCount(SegmentCmd(wide), SegSkip(wide) + SectionsSize(n, wide)) == n
  {
  }

  predicate KthSectionReads(buf: Bytes, start: nat, ss: seq<Section>, k: int, wide: bool, sec: Bytes)
    requires IsSearchName(sec) && 0 <= k < |ss|
  {
    SectionReads(buf, start + SectionsSize(k, wide), ss[k], wide, sec)
  }

  /** A segment whose sections can all be read where the walk looks for them. */
  ghost predicate SegmentReads(buf: Bytes, at: nat, ss: seq<Section>, wide: bool, sec: Bytes)
    requires IsSearchName(sec)
  {
    && at + SEGCMD_SIZE <= |buf|
    && ReadWord(buf, at) == SegmentCmd(wide)
    && ReadWord(buf, at + 4) == SegSkip(wide) + SectionsSize(|ss|, wide)
    && forall k {:trigger KthSectionReads(buf, at + SegSkip(wide), ss, k, wide, sec)} ::
        0 <= k < |ss| ==> KthSectionReads(buf, at + SegSkip(wide), ss, k, wide, sec)
  }

  lemma SectionsAreReadable(buf: Bytes, start: nat, ss: seq<Section>, wide: bool, sec: Bytes)
    requires (forall s :: s in ss ==> SectionWf(s, wide)) && IsSearchName(sec)
    requires Holds(buf, start, EncodeSections(ss, wide))
    ensures forall k {:trigger KthSectionReads(buf, start, ss, k, wide, sec)} ::
      0 <= k < |ss| ==> KthSectionReads(buf, start, ss, k, wide, sec)
  {
    forall k | 0 <= k < |ss| ensures KthSectionReads(buf, start, ss, k, wide, sec) {
      SectionIsReadable(buf, start, ss, k, wide, sec);
    }
  }

  method FindSection(buf: Bytes, base: Option<nat>, sec: Bytes, ghost ss: seq<Section>, ghost wide: bool)
    returns (r: Option<nat>)
    requires IsSearchName(sec)
    requires base.Some? ==> SegmentReads(buf, base.value, ss, wide, sec)
    ensures base.None? ==> r.None?
    ensures base.Some? && r.None? ==> forall k :: !FirstSection(ss, k, sec)
    ensures base.Some? && r.Some? ==>
      exists k :: FirstSection(ss, k, sec) && r.value == base.value + SegSkip(wide) + SectionsSize(k, wide)
  {
    if base.None? {
      return None;
    }
    var pos: nat := base.value;
    var cmd, cmdsize := ReadWord(buf, pos), ReadWord(buf, pos + 4);
    var segskip := if cmd == LC_SEGMENT then 56 else 72;
    var sectsize := if cmd == LC_SEGMENT then 68 else 80;
    CountsSections(|ss|, wide);
    var nsects := SectionCount(cmd, cmdsize);
    pos := pos + segskip;
    for i := 0 to nsects
      invariant pos == base.value + SegSkip(wide) + SectionsSize(i, wide)
      invariant NoneNamed(ss, i, sec)
    {
      assert KthSectionReads(buf, base.value + SegSkip(wide), ss, i, wide, sec);
      if SameString(buf, pos, sec) {
        assert FirstSection(ss, i, sec);
        return Some(pos);
      }
      pos := pos + sectsize;
    }
    return None;
  }

  /** What the walk reads at a load command of the image. */
  predicate CommandReads(buf: Bytes, at: nat, c: Command, wide: bool, seg: Bytes)
    requires IsSearchName(seg)
  {
    && at + SEGCMD_SIZE <= |buf|
    && ReadWord(buf, at) == (if c.Segment? then SegmentCmd(wide) else c.cmd)
    && ReadWord(buf, at + 4) == CommandSize(c, wide)
    && (c.Segment? ==> (SameString(buf, at + 8, seg) <==> c.name == seg))
  }

  lemma {:induction false} StartsAgree(cs: seq<Command>, parts: seq<Bytes>, k: nat, wide: bool)
    requires k <= |cs| == |parts| && forall i :: 0 <= i < |cs| ==> |parts[i]| == CommandSize(cs[i], wide)
    ensures Before(parts, k) == StartOf(cs, k, wide)
    decreases k
  {
    if k > 0 {
      StartsAgree(cs, parts, k - 1, wide);
      BeforeNext(parts, k - 1);
    }
  }

  lemma PartStarts(buf: Bytes, at: nat, cs: seq<Command>, parts: seq<Bytes>, k: nat, wide: bool)
    requires k < |cs| == |parts| && forall i :: 0 <= i < |cs| ==> |parts[i]| == CommandSize(cs[i], wide)
    requires Holds(buf, at, Concat(parts))
    ensures Holds(buf, at + StartOf(cs, k, wide), parts[k])
  {
    StartsAgree(cs, parts, k, wide);
    PartIsHeld(buf, at, parts, k);
  }

  /** The k-th command lies behind the first k. */
  lemma CommandIsHeld(buf: Bytes, at: nat, cs: seq<Command>, k: nat, wide: bool)
    requires (forall c :: c in cs ==> CommandWf(c, wide)) && k < |cs|
    requires Holds(buf, at, EncodeCommands(cs, wide))
    ensures Holds(buf, at + StartOf(cs, k, wide), EncodeCommand(cs[k], wide))
  {
    PartStarts(buf, at, cs, CommandParts(cs, wide), k, wide);
  }

  lemma {:induction false} WholeSize(parts: seq<Bytes>)
    ensures Before(parts, |parts|) == |Concat(parts)|
    decreases |parts|
  {
    if parts != [] {
      WholeSize(parts[1..]);
    }
  }

  lemma CommandsSize(cs: seq<Command>, wide: bool)
    requires forall c :: c in cs ==> CommandWf(c, wide)
    ensures |EncodeCommands(cs, wide)| == StartOf(cs, |cs|, wide)
  {
    var parts := CommandParts(cs, wide);
    WholeSize(parts);
    StartsAgree(cs, parts, |cs|, wide);
  }

  lemma {:induction false} StartsGrow(cs: seq<Command>, j: nat, k: nat, wide: bool)
    requires j <= k <= |cs|
    ensures StartOf(cs, j, wide) <= StartOf(cs, k, wide)
    decreases k
  {
    if j < k {
      StartsGrow(cs, j, k - 1, wide);
    }
  }

  /** The buffer holds all commands, and goes on for 24 bytes behind the start of the last one if the walk comes
      to it and it is not the segment. */
  predicate CommandsFit(buf: Bytes, at: nat, cs: seq<Command>, wide: bool, seg: Bytes) {
    && at + StartOf(cs, |cs|, wide) <= |buf|
    && (cs != [] && (forall c :: c in cs ==> !NamesSegment(c, seg)) ==>
          at + StartOf(cs, |cs| - 1, wide) + SEGCMD_SIZE <= |buf|)
  }

  lemma CommandFits(buf: Bytes, at: nat, cs: seq<Command>, k: nat, wide: bool, seg: Bytes)
    requires Visited(cs, k, seg) && CommandsFit(buf, at, cs, wide, seg)
    ensures at + StartOf(cs, k, wide) + SEGCMD_SIZE <= |buf|
  {
    if i :| 0 <= i < |cs| && NamesSegment(cs[i], seg) {
      assert k <= i;
      StartsGrow(cs, k, i, wide);
      StartsGrow(cs, i + 1, |cs|, wide);
    } else {
      StartsGrow(cs, k, |cs| - 1, wide);
    }
  }

  lemma HeldCommandReads(buf: Bytes, at: nat, c: Command, wide: bool, seg: Bytes)
    requires CommandWf(c, wide) && IsSearchName(seg)
    requires Holds(buf, at, EncodeCommand(c, wide)) && at + SEGCMD_SIZE <= |buf|
    ensures CommandReads(buf, at, c, wide, seg)
  {
    HeldCommand(buf, at, c, wide);
    if c.Segment? {
      HeldName(buf, at + 8, c.name, seg);
    }
  }

  /** A command that is held, and from whose start the buffer goes on far enough. */
  ghost predicate IsHeldWithRoom(buf: Bytes, at: nat, c: Command, wide: bool) {
    CommandWf(c, wide) && Holds(buf, at, EncodeCommand(c, wide)) && at + SEGCMD_SIZE <= |buf|
  }

  lemma VisitedIsHeld(buf: Bytes, at: nat, cs: seq<Command>, k: nat, wide: bool, seg: Bytes)
    requires (forall c :: c in cs ==> CommandWf(c, wide)) && Visited(cs, k, seg)
    requires Holds(buf, at, EncodeCommands(cs, wide)) && CommandsFit(buf, at, cs, wide, seg)
    ensures IsHeldWithRoom(buf, at + StartOf(cs, k, wide), cs[k], wide)
  {
    CommandFits(buf, at, cs, k, wide, seg);
    CommandIsHeld(buf, at, cs, k, wide);
  }

  /** The k-th load command can be read where the walk looks for it. */
  predicate KthReads(buf: Bytes, at: nat, cs: seq<Command>, k: int, wide: bool, seg: Bytes)
    requires IsSearchName(seg) && 0 <= k < |cs|
  {
    && CommandReads(buf, at + StartOf(cs, k, wide), cs[k], wide, seg)
    && (cs[k].Other? ==> cs[k].cmd != LC_SEGMENT && cs[k].cmd != LC_SEGMENT_64)
  }

  ghost predicate CommandsRead(buf: Bytes, at: nat, cs: seq<Command>, wide: bool, seg: Bytes)
    requires IsSearchName(seg)
  {
    forall k {:trigger KthReads(buf, at, cs, k, wide, seg)} ::
      Visited(cs, k, seg) ==> KthReads(buf, at, cs, k, wide, seg)
  }

  lemma CommandsAreReadable(buf: Bytes, at: nat, cs: seq<Command>, wide: bool, seg: Bytes)
    requires (forall c :: c in cs ==> CommandWf(c, wide)) && IsSearchName(seg)
    requires Holds(buf, at, EncodeCommands(cs, wide))
    requires CommandsFit(buf, at, cs, wide, seg)
    ensures CommandsRead(buf, at, cs, wide, seg)
  {
    forall k | Visited(cs, k, seg) ensures KthReads(buf, at, cs, k, wide, seg) {
      VisitedIsHeld(buf, at, cs, k, wide, seg);
      HeldCommandReads(buf, at + StartOf(cs, k, wide), cs[k], wide, seg);
    }
  }

  method FindSegment(buf: Bytes, base: nat, ncmds: Word, seg: Bytes, ghost cs: seq<Command>, ghost wide: bool)
    returns (r: Option<nat>)
    requires IsSearchName(seg) && ncmds == |cs|
    requires CommandsRead(buf, base, cs, wide, seg)
    ensures r.None? ==> forall k :: !FirstSegment(cs, k, seg)
    ensures r.Some? ==> exists k :: FirstSegment(cs, k, seg) && r.value == base + StartOf(cs, k, wide)
  {
    if ncmds <= 0 {
      return None;
    }
    var pos: nat := base;
    for i := 0 to ncmds
      invariant pos == base + StartOf(cs, i, wide)
      invariant forall j :: 0 <= j < i ==> !NamesSegment(cs[j], seg)
    {
      assert KthReads(buf, base, cs, i, wide, seg);
      var cmd, cmdsize := ReadWord(buf, pos), ReadWord(buf, pos + 4);
      if cmd == LC_SEGMENT || cmd == LC_SEGMENT_64 {
        if SameString(buf, pos + 8, seg) {
          assert FirstSegment(cs, i, seg);
          return Some(pos);
        }
      }
      pos := pos + cmdsize;
    }
    return None;
  }

  /** The header's fields, as find_segment_section copies them out. */
  lemma HeldHeader(buf: Bytes, at: nat, im: Image)
    requires Encodable(im) && Holds(buf, at, Encode(im))
    ensures ReadWord(buf, at) == MagicOf(im.wide) && ReadWord(buf, at + 16) == |im.commands|
    ensures Holds(buf, at + HeaderSize(im.wide), EncodeCommands(im.commands, im.wide))
    ensures at + HeaderSize(im.wide) + |EncodeCommands(im.commands, im.wide)| + |im.tail| <= |buf|
  {
    var cmds := EncodeCommands(im.commands, im.wide);
    var behind := BehindCount(im.header, im.wide);
    assert at + |Encode(im)| <= |buf|;
    HoldsSplit4(buf, at, LittleEndian(MagicOf(im.wide)), BeforeCount(im.header), LittleEndian(|im.commands|),
      behind + (cmds + im.tail));
    HoldsSplit(buf, at + 20, behind, cmds + im.tail);
    HoldsSplit(buf, at + HeaderSize(im.wide), cmds, im.tail);
    HeldWord(buf, at, MagicOf(im.wide));
    HeldWord(buf, at + 16, |im.commands|);
  }

  lemma HeldCommandsFit(buf: Bytes, at: nat, im: Image, seg: Bytes)
    requires ImageWf(im, seg) && Holds(buf, at, Encode(im))
    ensures CommandsFit(buf, at + HeaderSize(im.wide), im.commands, im.wide, seg)
  {
    HeldHeader(buf, at, im);
    CommandsSize(im.commands, im.wide);
  }

  /** The room asked for is exactly what keeps every copy that the walk makes inside the file. */
  lemma RoomIsNeeded(im: Image, seg: Bytes)
    requires Encodable(im)
    ensures HasRoom(im, seg) <==>
      forall k :: Visited(im.commands, k, seg) ==>
        HeaderSize(im.wide) + StartOf(im.commands, k, im.wide) + SEGCMD_SIZE <= |Encode(im)|
  {
    CommandsSize(im.commands, im.wide);
    var file := Encode(im);
    if HasRoom(im, seg) {
      assert CommandsFit(file, HeaderSize(im.wide), im.commands, im.wide, seg);
      forall k | Visited(im.commands, k, seg)
        ensures HeaderSize(im.wide) + StartOf(im.commands, k, im.wide) + SEGCMD_SIZE <= |file|
      {
        CommandFits(file, HeaderSize(im.wide), im.commands, k, im.wide, seg);
      }
    } else {
      assert Visited(im.commands, |im.commands| - 1, seg);
    }
  }

  /** A load command that, if it is a segment, has its sections where the walk looks for them. */
  ghost predicate SectionsRead(buf: Bytes, at: nat, c: Command, wide: bool, sec: Bytes)
    requires IsSearchName(sec)
  {
    c.Segment? ==> SegmentReads(buf, at, c.sections, wide, sec)
  }

  lemma SegmentIsReadable(buf: Bytes, at: nat, c: Command, wide: bool, sec: Bytes)
    requires CommandWf(c, wide) && IsSearchName(sec)
    requires Holds(buf, at, EncodeCommand(c, wide))
    ensures SectionsRead(buf, at, c, wide, sec)
  {
    HeldCommand(buf, at, c, wide);
    if c.Segment? {
      SectionsAreReadable(buf, at + SegSkip(wide), c.sections, wide, sec);
    }
  }

  lemma FoundSection(buf: Bytes, im: Image, i: int, at: nat, seg: Bytes, sec: Bytes, r: Option<nat>)
    requires IsSearchName(sec) && FirstSegment(im.commands, i, seg)
    requires SegmentReads(buf, at, im.commands[i].sections, im.wide, sec)
    requires r.None? ==> forall k :: !FirstSection(im.commands[i].sections, k, sec)
    requires r.Some? ==>
      exists k :: FirstSection(im.commands[i].sections, k, sec)
               && r.value == at + SegSkip(im.wide) + SectionsSize(k, im.wide)
    ensures r.None? ==> forall w :: !IsTimestamp(im, seg, sec, w)
    ensures r.Some? ==>
      && r.value + SecSize(im.wide) <= |buf|
      && IsTimestamp(im, seg, sec, ReadWord(buf, r.value + OffsetField(im.wide)))
  {
    assert forall j :: FirstSegment(im.commands, j, seg) ==> j == i;
    if r.Some? {
      var ss := im.commands[i].sections;
      var k :| FirstSection(ss, k, sec) && r.value == at + SegSkip(im.wide) + SectionsSize(k, im.wide);
      assert KthSectionReads(buf, at + SegSkip(im.wide), ss, k, im.wide, sec);
    }
  }

  ghost predicate SegmentAtReads(buf: Bytes, start: nat, cs: seq<Command>, i: int, wide: bool, sec: Bytes)
    requires IsSearchName(sec) && 0 <= i < |cs|
  {
    SectionsRead(buf, start + StartOf(cs, i, wide), cs[i], wide, sec)
  }

  ghost predicate SegmentsRead(buf: Bytes, start: nat, cs: seq<Command>, wide: bool, sec: Bytes)
    requires IsSearchName(sec)
  {
    forall i {:trigger SegmentAtReads(buf, start, cs, i, wide, sec)} ::
      0 <= i < |cs| ==> SegmentAtReads(buf, start, cs, i, wide, sec)
  }

  /** An image lies at `base`, and everything the walk will read there is where it will look. */
  ghost predicate ImageReads(buf: Bytes, base: nat, im: Image, seg: Bytes, sec: Bytes)
    requires IsSearchName(seg) && IsSearchName(sec)
  {
    var start := base + HeaderSize(im.wide);
    && start <= |buf|
    && ReadWord(buf, base) == MagicOf(im.wide)
    && ReadWord(buf, base + 16) == |im.commands|
    && CommandsRead(buf, start, im.commands, im.wide, seg)
    && SegmentsRead(buf, start, im.commands, im.wide, sec)
  }

  lemma KthSegmentIsReadable(buf: Bytes, start: nat, cs: seq<Command>, i: nat, wide: bool, sec: Bytes)
    requires (forall c :: c in cs ==> CommandWf(c, wide)) && IsSearchName(sec) && i < |cs|
    requires Holds(buf, start, EncodeCommands(cs, wide))
    ensures SegmentAtReads(buf, start, cs, i, wide, sec)
  {
    CommandIsHeld(buf, start, cs, i, wide);
    SegmentIsReadable(buf, start + StartOf(cs, i, wide), cs[i], wide, sec);
  }

  lemma SegmentsAreReadable(buf: Bytes, start: nat, cs: seq<Command>, wide: bool, sec: Bytes)
    requires (forall c :: c in cs ==> CommandWf(c, wide)) && IsSearchName(sec)
    requires Holds(buf, start, EncodeCommands(cs, wide))
    ensures SegmentsRead(buf, start, cs, wide, sec)
  {
    forall i | 0 <= i < |cs| ensures SegmentAtReads(buf, start, cs, i, wide, sec) {
      KthSegmentIsReadable(buf, start, cs, i, wide, sec);
    }
  }

  lemma ImageIsReadable(buf: Bytes, base: nat, im: Image, seg: Bytes, sec: Bytes)
    requires IsSearchName(seg) && IsSearchName(sec) && ImageWf(im, seg) && Holds(buf, base, Encode(im))
    ensures ImageReads(buf, base, im, seg, sec)
  {
    HeldHeader(buf, base, im);
    HeldCommandsFit(buf, base, im, seg);
    CommandsAreReadable(buf, base + HeaderSize(im.wide), im.commands, im.wide, seg);
    SegmentsAreReadable(buf, base + HeaderSize(im.wide), im.commands, im.wide, sec);
  }

  method FindSegmentSection(buf: Bytes, base: nat, seg: Bytes, sec: Bytes, ghost im: Image)
    returns (r: Option<nat>)
    requires IsSearchName(seg) && IsSearchName(sec) && ImageReads(buf, base, im, seg, sec)
    ensures r.None? ==> forall w :: !IsTimestamp(im, seg, sec, w)
    ensures r.Some? ==>
      && r.value + SecSize(im.wide) <= |buf|
      && IsTimestamp(im, seg, sec, ReadWord(buf, r.value + OffsetField(im.wide)))
  {
    var magic, ncmds := ReadWord(buf, base), ReadWord(buf, base + 16);
    var start := base + if magic == MH_MAGIC_64 then 32 else 28;
    var segment := FindSegment(buf, start, ncmds, seg, im.commands, im.wide);
    if segment.None? {
      r := FindSection(buf, segment, sec, [], im.wide);
    } else {
      ghost var i :| FirstSegment(im.commands, i, seg) && segment.value == start + StartOf(im.commands, i, im.wide);
      assert SegmentAtReads(buf, start, im.commands, i, im.wide, sec);
      r := FindSection(buf, segment, sec, im.commands[i].sections, im.wide);
      FoundSection(buf, im, i, segment.value, seg, sec, r);
    }
  }

  lemma TimestampIsUnique(im: Image, seg: Bytes, sec: Bytes, v: Word, w: Word)
    requires IsTimestamp(im, seg, sec, v) && IsTimestamp(im, seg, sec, w)
    ensures v == w
  {
    var i, k :| FirstSegment(im.commands, i, seg) && FirstSection(im.commands[i].sections, k, sec)
      && im.commands[i].sections[k].offset == v;
    var j, l :| FirstSegment(im.commands, j, seg) && FirstSection(im.commands[j].sections, l, sec)
      && im.commands[j].sections[l].offset == w;
    assert i == j;
    assert k == l;
  }

  /** `magic` is the first word of the file: the image's own in a thin file; in a universal one it is
      the fat magic, and then nothing is ever found. By ImageIsReadable every encoded image, wherever it
      lies in the buffer, meets the precondition. */
  method FindTsOffset(buf: Bytes, base: nat, magic: Word, seg: Bytes, sec: Bytes, ghost im: Image) returns (r: int)
    requires IsSearchName(seg) && IsSearchName(sec)
    requires ImageReads(buf, base, im, seg, sec)
    requires magic == MagicOf(im.wide) || magic !in {MH_MAGIC, MH_MAGIC_64}
    ensures magic == MagicOf(im.wide) ==> forall w :: IsTimestamp(im, seg, sec, w) ==> r == ToInt32(w)
    ensures magic == MagicOf(im.wide) && (forall w :: !IsTimestamp(im, seg, sec, w)) ==> r == -1
    ensures magic != MagicOf(im.wide) ==> r == -1
  {
    var section := FindSegmentSection(buf, base, seg, sec, im);
    if section.None? {
      return -1;
    }
    ghost var found := ReadWord(buf, section.value + OffsetField(im.wide));
    forall w | IsTimestamp(im, seg, sec, w) ensures w == found {
      TimestampIsUnique(im, seg, sec, w, found);
    }
    if magic == MH_MAGIC_64 {
      return ToInt32(ReadWord(buf, section.value + 48));
    } else if magic == MH_MAGIC {
      return ToInt32(ReadWord(buf, section.value + 40));
    }
    return -1;
  }

  lemma {:induction false} SuffixIsHeld(buf: Bytes, at: nat)
    requires at <= |buf|
    ensures Holds(buf, at, buf[at..])
    decreases |buf| - at
  {
    if at < |buf| {
      SuffixIsHeld(buf, at + 1);
      assert buf[at..][1..] == buf[at + 1..];
    }
  }

  /** The thin case from end to end: on the bytes of any image the walk answers what a search of the
      abstract image answers. */
  method FindTsOffsetOfImage(buf: Bytes, seg: Bytes, sec: Bytes, ghost im: Image) returns (r: int)
    requires IsSearchName(seg) && IsSearchName(sec) && ImageWf(im, seg) && buf == Encode(im)
    ensures -0x8000_0000 <= r < 0x8000_0000
    ensures forall w :: IsTimestamp(im, seg, sec, w) ==> r == ToInt32(w)
    ensures (forall w :: !IsTimestamp(im, seg, sec, w)) ==> r == -1
  {
    SuffixIsHeld(buf, 0);
    ImageIsReadable(buf, 0, im, seg, sec);
    r := FindTsOffset(buf, 0, ReadWord(buf, 0), seg, sec, im);
  }

  // --------------------------------------------------------- what is made of it

  const TIMESTAMP_SIZE := 8

  /** get_timestamp keeps the answer in a uint32_t. */
  function StoredOffset(r: int): Word
    requires -0x8000_0000 <= r < 0x8000_0000
  {
    if r < 0 then r + 0x1_0000_0000 else r
  }

  /** Its test that the eight bytes of the timestamp lie in the file adds in 32 bits. */
  predicate GuardPasses(offset: Word, fileSize: nat) {
    (offset + TIMESTAMP_SIZE) % 0x1_0000_0000 <= fileSize
  }

  /** The test tells whether the timestamp lies in the file if and only if the sum does not wrap round, or the file
      is so large that it does not matter, or so small that what is left of the sum exceeds it. */
  lemma GuardIsRightIff(offset: Word, fileSize: nat)
    ensures (GuardPasses(offset, fileSize) <==> offset + 8 <= fileSize) <==>
      || offset + 8 < 0x1_0000_0000
      || offset + 8 <= fileSize
      || offset + 8 - 0x1_0000_0000 > fileSize
  {
    if offset + 8 >= 0x1_0000_0000 {
      assert (offset + 8) % 0x1_0000_0000 == offset + 8 - 0x1_0000_0000;
    }
  }

  /** get_timestamp on a thin image, up to the reading of the timestamp: the section's offset and whether the
      test lets it through. Without the section the stored offset is that of -1, and the test lets it through. */
  method TimestampOffset(buf: Bytes, seg: Bytes, sec: Bytes, ghost im: Image) returns (offset: Word, passes: bool)
    requires IsSearchName(seg) && IsSearchName(sec) && ImageWf(im, seg) && buf == Encode(im)
    ensures passes <==> GuardPasses(offset, |buf|)
    ensures forall w :: IsTimestamp(im, seg, sec, w) ==> offset == w
    ensures (forall w :: !IsTimestamp(im, seg, sec, w)) ==> offset == 0xffff_ffff && passes
  {
    var r := FindTsOffsetOfImage(buf, seg, sec, im);
    offset := StoredOffset(r);
    passes := (offset + TIMESTAMP_SIZE) % 0x1_0000_0000 <= |buf|;
  }

  // ------------------------------------------------------------- universal files

  datatype Arch = Arch(cpuType: Word, cpuSubtype: Word, offset: Word, size: Word, align: Word)

  function EncodeArch(a: Arch): (e: Bytes)
    ensures |e| == FAT_ARCH_SIZE
  {
    BigEndian(a.cpuType) + (BigEndian(a.cpuSubtype) + (BigEndian(a.offset) + (BigEndian(a.size) + BigEndian(a.align))))
  }

  function ArchParts(archs: seq<Arch>): (parts: seq<Bytes>)
    ensures |parts| == |archs|
  {
    seq(|archs|, i requires 0 <= i < |archs| => EncodeArch(archs[i]))
  }

  function EncodeArchs(archs: seq<Arch>): Bytes {
    Concat(ArchParts(archs))
  }

  function EncodeFat(magic: Word, archs: seq<Arch>, tail: Bytes): Bytes
    requires |archs| < 0x1_0000_0000
  {
    BigEndian(magic) + (BigEndian(|archs|) + (EncodeArchs(archs) + tail))
  }

  predicate IsIntel(a: Arch) {
    a.cpuType == 7 || a.cpuType == 7 + 0x100_0000
  }

  lemma HeldArch(buf: Bytes, at: nat, a: Arch)
    requires Holds(buf, at, EncodeArch(a))
    ensures ReadNetworkWord(buf, at) == a.cpuType && ReadNetworkWord(buf, at + 8) == a.offset
  {
    HoldsSplit4(buf, at, BigEndian(a.cpuType), BigEndian(a.cpuSubtype), BigEndian(a.offset),
      BigEndian(a.size) + BigEndian(a.align));
    HeldNetworkWord(buf, at, a.cpuType);
    HeldNetworkWord(buf, at + 8, a.offset);
  }

  lemma {:induction false} ArchStart(parts: seq<Bytes>, k: nat)
    requires k <= |parts| && forall i :: 0 <= i < |parts| ==> |parts[i]| == FAT_ARCH_SIZE
    ensures Before(parts, k) == k * FAT_ARCH_SIZE
    decreases k
  {
    if k > 0 {
      ArchStart(parts[1..], k - 1);
    }
  }

  lemma ArchIsReadable(buf: Bytes, at: nat, archs: seq<Arch>, k: nat)
    requires Holds(buf, at, EncodeArchs(archs)) && k < |archs|
    ensures at + (k + 1) * FAT_ARCH_SIZE <= |buf|
    ensures ReadNetworkWord(buf, at + k * FAT_ARCH_SIZE) == archs[k].cpuType
    ensures ReadNetworkWord(buf, at + k * FAT_ARCH_SIZE + 8) == archs[k].offset
  {
    var parts := ArchParts(archs);
    PartIsHeld(buf, at, parts, k);
    ArchStart(parts, k);
    HeldArch(buf, at + k * FAT_ARCH_SIZE, archs[k]);
  }

  lemma FatIsReadable(buf: Bytes, base: nat, magic: Word, archs: seq<Arch>, tail: Bytes)
    requires |archs| < 0x1_0000_0000 && Holds(buf, base, EncodeFat(magic, archs, tail))
    ensures base + FAT_HEADER_SIZE <= |buf| && ReadNetworkWord(buf, base + 4) == |archs|
    ensures Holds(buf, base + FAT_HEADER_SIZE, EncodeArchs(archs))
  {
    HoldsSplit4(buf, base, BigEndian(magic), BigEndian(|archs|), EncodeArchs(archs), tail);
    HeldNetworkWord(buf, base + 4, |archs|);
  }

  /** The image of the first Intel architecture: its file offset, read as a signed 32-bit number, from
      the start of the file. */
  method GetArchOffset(buf: Bytes, base: nat, ghost magic: Word, ghost archs: seq<Arch>, ghost tail: Bytes)
    returns (r: Option<int>)
    requires |archs| < 0x1_0000_0000 && Holds(buf, base, EncodeFat(magic, archs, tail))
    ensures r.None? ==> forall a :: a in archs ==> !IsIntel(a)
    ensures r.Some? ==>
      exists k ::
        && 0 <= k < |archs| && IsIntel(archs[k])
        && (forall j :: 0 <= j < k ==> !IsIntel(archs[j]))
        && r.value == base + ToInt32(archs[k].offset)
  {
    FatIsReadable(buf, base, magic, archs, tail);
    var pos: nat := base + FAT_HEADER_SIZE;
    for i := 0 to ReadNetworkWord(buf, base + 4)
      invariant pos == base + FAT_HEADER_SIZE + i * FAT_ARCH_SIZE
      invariant forall j :: 0 <= j < i ==> !IsIntel(archs[j])
    {
      ArchIsReadable(buf, base + FAT_HEADER_SIZE, archs, i);
      var cpu, offset := ReadNetworkWord(buf, pos), ReadNetworkWord(buf, pos + 8);
      pos := pos + FAT_ARCH_SIZE;
      if cpu == CPU_TYPE_X86 || cpu == CPU_TYPE_X86_64 {
        return Some(base + ToInt32(offset));
      }
    }
    return None;
  }
}
