/** The search of an ELF note segment for the GNU build id. */
module ElfNotes {
  import opened Common
  import opened LittleEndian

  /** Header words are in the machine's own byte order. */
  datatype Endian = Little | Big

  const HEADER := 12
  const BUILD_ID := 3
  const GNU: seq<byte> := [0x47, 0x4e, 0x55]
  const WORD_MAX := 0xffff_ffff

  /** Four bytes as the machine orders them, from the low byte up. */
  function LowFirst(order: Endian, b: seq<byte>): (r: seq<byte>)
    requires |b| == 4
    ensures |r| == 4
  {
    if order.Little? then b else [b[3], b[2], b[1], b[0]]
  }

  function Word(order: Endian, b: seq<byte>): nat
    requires |b| == 4
  {
    FromLittleEndian(LowFirst(order, b))
  }

  function Aligned(value: nat): nat { value + 3 - (value + 3) % 4 }

  datatype Note = Note(name: seq<byte>, desc: seq<byte>, kind: nat)

  // Reading.

  /** The lengths and kind a header holds, and where its note ends. */
  datatype Header = Header(nameLen: nat, descLen: nat, kind: nat) {
    function DescStart(): nat { HEADER + Aligned(nameLen) }
    function Next(): nat { DescStart() + Aligned(descLen) }
  }

  function ReadHeader(order: Endian, notes: seq<byte>): Header
    requires |notes| >= HEADER
  {
    Header(Word(order, notes[0..4]), Word(order, notes[4..8]), Word(order, notes[8..12]))
  }

  predicate IsBuildId(note: Note) {
    note.kind == BUILD_ID && GNU <= note.name && note.desc != []
  }

  /** The note at the front of a segment, if all of it is there. */
  function FrontNote(order: Endian, notes: seq<byte>): Option<(Note, nat)> {
    if |notes| < HEADER then None
    else
      var h := ReadHeader(order, notes);
      if h.Next() > |notes| then None
      else Some((Note(notes[HEADER..HEADER + h.nameLen], notes[h.DescStart()..h.DescStart() + h.descLen], h.kind),
                 h.Next()))
  }

  /** Notes are taken from the front until one is a build id or cut short. */
  function FirstBuildId(order: Endian, notes: seq<byte>): Option<seq<byte>>
    decreases |notes|
  {
    match FrontNote(order, notes)
    case None => None
    case Some((note, next)) =>
      if IsBuildId(note) then Some(note.desc) else FirstBuildId(order, notes[next..])
  }

  /** The wire constants, in literals: lengths are rounded up to multiples of
      four, and a build id is a non-empty note of type 3 named `GNU`. */
  lemma WireFormat(note: Note, length: nat, a: byte, b: byte, c: byte, d: byte)
    ensures Aligned(length) % 4 == 0 && length <= Aligned(length) < length + 4
    ensures IsBuildId(note) <==>
              && note.kind == 3 && |note.desc| > 0
              && |note.name| >= 3 && note.name[0] == 0x47 && note.name[1] == 0x4e && note.name[2] == 0x55
    ensures Word(Little, [a, b, c, d]) == a + 0x100 * (b + 0x100 * (c + 0x100 * d))
    ensures Word(Big, [a, b, c, d]) == d + 0x100 * (c + 0x100 * (b + 0x100 * a))
  {
    WordOf(a, b, c, d);
    WordOf(d, c, b, a);
    if |note.name| >= 3 {
      assert GNU <= note.name <==> note.name[..3] == GNU;
      assert note.name[..3] == [note.name[0], note.name[1], note.name[2]];
    }
  }

  lemma WordOf(a: byte, b: byte, c: byte, d: byte)
    ensures FromLittleEndian([a, b, c, d]) == a + 0x100 * (b + 0x100 * (c + 0x100 * d))
  {
    assert FromLittleEndian([d]) == d by { assert [d][1..] == []; }
    assert FromLittleEndian([c, d]) == c + 0x100 * d by { assert [c, d][1..] == [d]; }
    assert FromLittleEndian([b, c, d]) == b + 0x100 * (c + 0x100 * d) by { assert [b, c, d][1..] == [c, d]; }
    assert [a, b, c, d][1..] == [b, c, d];
  }

  // Checked arithmetic on a machine whose largest size is `max`.

  function CheckedAdd(max: nat, a: nat, b: nat): Option<nat> {
    if a + b <= max then Some(a + b) else None
  }

  function CheckedAligned(max: nat, value: nat): Option<nat> {
    match CheckedAdd(max, value, 3)
    case None => None
    case Some(sum) => Some(sum - sum % 4)
  }

  datatype Layout = Layout(nameEnd: nat, descStart: nat, descEnd: nat, next: nat)

  /** The offsets of a note, or None as soon as one cannot be represented. */
  function CheckedLayout(max: nat, h: Header): Option<Layout> {
    if h.nameLen > max || h.descLen > max then None
    else match (CheckedAdd(max, HEADER, h.nameLen), CheckedAligned(max, h.nameLen), CheckedAligned(max, h.descLen))
      case (Some(nameEnd), Some(name), Some(desc)) => (
        match CheckedAdd(max, HEADER, name)
        case None => None
        case Some(descStart) =>
          match (CheckedAdd(max, descStart, h.descLen), CheckedAdd(max, descStart, desc))
          case (Some(descEnd), Some(next)) => Some(Layout(nameEnd, descStart, descEnd, next))
          case _ => None)
      case _ => None
  }

  /** The checked offsets are the true ones, and the checks refuse nothing that
      fits: a note is representable exactly when its end is. */
  lemma CheckedLayoutIsExact(max: nat, h: Header)
    ensures CheckedLayout(max, h).Some? <==> h.Next() <= max
    ensures CheckedLayout(max, h).Some? ==>
              CheckedLayout(max, h).value
              == Layout(HEADER + h.nameLen, h.DescStart(), h.DescStart() + h.descLen, h.Next())
  {
  }

  /** One turn of the search. */
  lemma OneTurn(order: Endian, max: nat, notes: seq<byte>)
    requires HEADER <= |notes| <= max
    ensures var h := ReadHeader(order, notes);
            match CheckedLayout(max, h)
            case None => FirstBuildId(order, notes) == None
            case Some(l) =>
              && HEADER <= l.nameEnd <= l.descStart <= l.descEnd <= l.next
              && (l.next > |notes| ==> FirstBuildId(order, notes) == None)
              && (l.next <= |notes| ==>
                    FirstBuildId(order, notes)
                    == if h.kind == BUILD_ID && GNU <= notes[HEADER..l.nameEnd] && h.descLen > 0
                       then Some(notes[l.descStart..l.descEnd])
                       else FirstBuildId(order, notes[l.next..]))
  {
    hide Word, FromLittleEndian, CheckedLayout;
    CheckedLayoutIsExact(max, ReadHeader(order, notes));
  }

  /** The source's search, with every addition checked. For any word width that
      can hold the segment's length, the checks change no answer: an addition
      that overflows belongs to a note that does not fit. */
  method GnuBuildIdFromNotes(order: Endian, max: nat, notes: seq<byte>) returns (r: Option<seq<byte>>)
    requires |notes| <= max
    ensures r == FirstBuildId(order, notes)
  {
    var rest := notes;
    while |rest| >= HEADER
      invariant |rest| <= max
      invariant FirstBuildId(order, notes) == FirstBuildId(order, rest)
      decreases |rest|
    {
      var h := ReadHeader(order, rest);
      OneTurn(order, max, rest);
      var layout := CheckedLayout(max, h);
      if layout.None? {
        return None;
      }
      var Layout(nameEnd, descStart, descEnd, next) := layout.value;
      if next > |rest| || nameEnd > |rest| || descEnd > |rest| {
        return None;
      }
      if h.kind == BUILD_ID && GNU <= rest[HEADER..nameEnd] && h.descLen > 0 {
        return Some(rest[descStart..descEnd]);
      }
      rest := rest[next..];
    }
    r := None;
  }

  // What the search finds.

  /** The segment begins with these notes, whatever its padding bytes hold. */
  ghost predicate BeginsWith(order: Endian, notes: seq<byte>, list: seq<Note>)
    decreases |list|
  {
    list != [] ==>
      && FrontNote(order, notes).Some? && FrontNote(order, notes).value.0 == list[0]
      && BeginsWith(order, notes[FrontNote(order, notes).value.1..], list[1..])
  }

  /** The last note is a build id with this content, and no earlier one is. */
  ghost predicate EndsAtFirst(list: seq<Note>, desc: seq<byte>) {
    && list != [] && IsBuildId(list[|list| - 1]) && list[|list| - 1].desc == desc
    && forall i :: 0 <= i < |list| - 1 ==> !IsBuildId(list[i])
  }

  ghost predicate Locates(order: Endian, notes: seq<byte>, list: seq<Note>, desc: seq<byte>) {
    BeginsWith(order, notes, list) && EndsAtFirst(list, desc)
  }

  lemma {:induction false} FirstIsFound(order: Endian, notes: seq<byte>, list: seq<Note>, desc: seq<byte>)
    requires Locates(order, notes, list, desc)
    ensures FirstBuildId(order, notes) == Some(desc)
    decreases |list|
  {
    if |list| > 1 {
      assert !IsBuildId(list[0]);
      assert list[1..][|list| - 2] == list[|list| - 1];
      FirstIsFound(order, notes[FrontNote(order, notes).value.1..], list[1..], desc);
    }
  }

  lemma {:induction false} FoundIsFirst(order: Endian, notes: seq<byte>, desc: seq<byte>) returns (list: seq<Note>)
    requires FirstBuildId(order, notes) == Some(desc)
    ensures Locates(order, notes, list, desc)
    decreases |notes|
  {
    var (note, next) := FrontNote(order, notes).value;
    if IsBuildId(note) {
      list := [note];
      assert list[1..] == [];
    } else {
      var rest := FoundIsFirst(order, notes[next..], desc);
      list := [note] + rest;
      assert list[1..] == rest;
    }
  }

  /** A descriptor is returned exactly when the segment begins with complete
      notes of which the last is the first build id, with that content. */
  lemma FoundExactlyWhenLocated(order: Endian, notes: seq<byte>, desc: seq<byte>)
    ensures FirstBuildId(order, notes) == Some(desc) <==> exists list :: Locates(order, notes, list, desc)
  {
    if FirstBuildId(order, notes) == Some(desc) {
      var list := FoundIsFirst(order, notes, desc);
    }
    forall list | Locates(order, notes, list, desc) ensures FirstBuildId(order, notes) == Some(desc) {
      FirstIsFound(order, notes, list, desc);
    }
  }

  // Printing.

  predicate Printable(note: Note) {
    |note.name| <= WORD_MAX && |note.desc| <= WORD_MAX && note.kind <= WORD_MAX
  }

  function PrintWord(order: Endian, value: nat): (r: seq<byte>)
    ensures |r| == 4
  {
    LowFirst(order, ToLittleEndian(value, 4))
  }

  lemma WordRoundTrip(order: Endian, value: nat)
    requires value <= WORD_MAX
    ensures Word(order, PrintWord(order, value)) == value
  {
    var low := ToLittleEndian(value, 4);
    assert LowFirst(order, LowFirst(order, low)) == low;
    assert Power(4) == WORD_MAX + 1;
    ValueRoundTrip(value, 4);
  }

  function Pad(bytes: seq<byte>): (r: seq<byte>)
    ensures |r| == Aligned(|bytes|)
  {
    bytes + seq(Aligned(|bytes|) - |bytes|, _ => 0)
  }

  function Print(order: Endian, note: Note): seq<byte>
    requires Printable(note)
  {
    PrintWord(order, |note.name|) + PrintWord(order, |note.desc|) + PrintWord(order, note.kind)
    + Pad(note.name) + Pad(note.desc)
  }

  function PrintAll(order: Endian, list: seq<Note>): seq<byte>
    requires forall i :: 0 <= i < |list| ==> Printable(list[i])
  {
    if list == [] then [] else Print(order, list[0]) + PrintAll(order, list[1..])
  }

  lemma PrintedHeader(order: Endian, note: Note, tail: seq<byte>)
    requires Printable(note)
    ensures |Print(order, note)| >= HEADER
    ensures ReadHeader(order, Print(order, note) + tail) == Header(|note.name|, |note.desc|, note.kind)
  {
    var all := Print(order, note) + tail;
    assert all[0..4] == PrintWord(order, |note.name|);
    assert all[4..8] == PrintWord(order, |note.desc|);
    assert all[8..12] == PrintWord(order, note.kind);
    WordRoundTrip(order, |note.name|);
    WordRoundTrip(order, |note.desc|);
    WordRoundTrip(order, note.kind);
  }

  lemma NoteRoundTrip(order: Endian, note: Note, tail: seq<byte>)
    requires Printable(note)
    ensures FrontNote(order, Print(order, note) + tail) == Some((note, |Print(order, note)|))
    ensures (Print(order, note) + tail)[|Print(order, note)|..] == tail
  {
    hide Word, PrintWord, FromLittleEndian, ToLittleEndian;
    PrintedHeader(order, note, tail);
    var all := Print(order, note) + tail;
    var h := ReadHeader(order, all);
    assert all[HEADER..HEADER + h.nameLen] == note.name;
    assert all[h.DescStart()..h.DescStart() + h.descLen] == note.desc;
  }

  /** The first build id of a list of notes. */
  function FirstOf(list: seq<Note>): Option<seq<byte>> {
    if list == [] then None
    else if IsBuildId(list[0]) then Some(list[0].desc)
    else FirstOf(list[1..])
  }

  /** Searching printed notes finds the first build id among them; without one
      the search goes on in whatever follows. */
  lemma {:induction false} SearchOfPrinted(order: Endian, list: seq<Note>, tail: seq<byte>)
    requires forall i :: 0 <= i < |list| ==> Printable(list[i])
    ensures FirstBuildId(order, PrintAll(order, list) + tail)
            == if FirstOf(list).Some? then FirstOf(list) else FirstBuildId(order, tail)
    decreases |list|
  {
    hide Print, FrontNote, IsBuildId;
    if list == [] {
      assert [] + tail == tail;
    } else {
      var rest := PrintAll(order, list[1..]) + tail;
      assert PrintAll(order, list) + tail == Print(order, list[0]) + rest;
      NoteRoundTrip(order, list[0], rest);
      SearchOfPrinted(order, list[1..], tail);
    }
  }

  /** A printed segment alone. */
  lemma PrintedNotesRoundTrip(order: Endian, list: seq<Note>)
    requires forall i :: 0 <= i < |list| ==> Printable(list[i])
    ensures FirstBuildId(order, PrintAll(order, list)) == FirstOf(list)
  {
    SearchOfPrinted(order, list, []);
    assert PrintAll(order, list) + [] == PrintAll(order, list);
  }
}
