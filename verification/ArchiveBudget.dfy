/** The byte budgets around extraction: a bounded copy that trusts no declared
    size, and the entry loop that threads one output budget through files and
    link targets before the links are installed. */
module ArchiveBudget {
  import opened Common
  import opened ArchivePaths
  import opened ArchiveResolve
  import opened ArchiveInstall

  const BUFFER_BYTES: nat := 65536

  /** How a single `read` call behaves: a short count, a retryable
      interruption, or a broken stream. */
  datatype ReadStep = Short(count: nat) | Interrupted | Broken

  datatype ReadResult = Got(bytes: seq<byte>) | Again | Fault

  /** A stream with scripted read behaviour; past the script, reads are full. */
  class Reader {
    const stream: seq<byte>
    var position: nat
    var script: seq<ReadStep>

    constructor (stream: seq<byte>, script: seq<ReadStep>)
      ensures this.stream == stream && this.script == script && position == 0
    {
      this.stream := stream;
      this.script := script;
      position := 0;
    }

    ghost predicate Valid()
      reads this
    {
      position <= |stream|
    }

    method Read(capacity: nat) returns (r: ReadResult)
      requires Valid() && capacity > 0
      modifies this
      ensures Valid() && old(position) <= position <= old(position) + capacity
      ensures r.Got? ==> r.bytes == stream[old(position)..position]
      ensures r.Got? ==> (position == old(position) <==> old(position) == |stream|)
      ensures !r.Got? ==> position == old(position) && |script| < |old(script)|
      ensures |script| <= |old(script)| && (Broken !in old(script) ==> Broken !in script && !r.Fault?)
    {
      var count := Min(capacity, |stream| - position);
      if script != [] {
        var step := script[0];
        script := script[1..];
        match step
        case Interrupted => return Again;
        case Broken => return Fault;
        case Short(n) => count := Min(count, if n == 0 then 1 else n);
      }
      r := Got(stream[position..position + count]);
      position := position + count;
    }
  }

  /** An output that may run out of room. */
  class Writer {
    var data: seq<byte>
    var room: nat

    constructor (room: nat)
      ensures data == [] && this.room == room
    {
      data := [];
      this.room := room;
    }

    method WriteAll(bytes: seq<byte>) returns (ok: bool)
      modifies this
      ensures ok <==> |bytes| <= old(room)
      ensures ok ==> data == old(data) + bytes && room == old(room) - |bytes|
      ensures !ok ==> exists k: nat :: k <= |bytes| && data == old(data) + bytes[..k]
    {
      ok := |bytes| <= room;
      var n := Min(|bytes|, room);
      data := data + bytes[..n];
      room := room - n;
      assert ok ==> bytes[..n] == bytes;
    }
  }

  /** `data` is `before` and then the stream's bytes from `start` to `end`. */
  ghost predicate Copied(data: seq<byte>, before: seq<byte>, stream: seq<byte>, start: nat, end: nat) {
    start <= end <= |stream| && data == before + stream[start..end]
  }

  lemma CopiedMore(data: seq<byte>, before: seq<byte>, stream: seq<byte>, start: nat, mid: nat, end: nat)
    requires Copied(data, before, stream, start, mid) && mid <= end <= |stream|
    ensures Copied(data + stream[mid..end], before, stream, start, end)
  {
    assert stream[start..mid] + stream[mid..end] == stream[start..end];
  }

  /** Copies the rest of the stream if it fits the budget.  It succeeds exactly
      when the stream fits (and neither end breaks), writes nothing but the
      stream's own bytes in order, and pulls at most one byte too many. */
  method CopyBounded(reader: Reader, writer: Writer, budget: nat) returns (ok: bool, left: nat)
    requires reader.Valid()
    modifies reader, writer
    ensures reader.Valid() && left <= budget
    ensures old(reader.position) <= reader.position <= old(reader.position) + budget + 1
    ensures ok ==> && Copied(writer.data, old(writer.data), reader.stream, old(reader.position), |reader.stream|)
                   && left == budget - (|reader.stream| - old(reader.position))
                   && |reader.stream| - old(reader.position) <= old(writer.room)
    ensures !ok ==> exists end :: && old(reader.position) + (budget - left) <= end <= old(reader.position) + budget
                                  && Copied(writer.data, old(writer.data), reader.stream, old(reader.position), end)
    ensures var size := |reader.stream| - old(reader.position);
            && (size > budget ==> !ok)
            && (Broken !in old(reader.script) ==> (ok <==> size <= budget && size <= old(writer.room)))
  {
    ghost var start, before := reader.position, writer.data;
    left := budget;
    assert Copied(writer.data, before, reader.stream, start, start);
    while true
      invariant reader.Valid() && left <= budget && reader.position == start + (budget - left)
      invariant Copied(writer.data, before, reader.stream, start, reader.position)
      invariant writer.room == old(writer.room) - (budget - left)
      invariant Broken !in old(reader.script) ==> Broken !in reader.script
      decreases |reader.stream| - reader.position + |reader.script|
    {
      ghost var at := reader.position;
      var r := reader.Read(Min(left + 1, BUFFER_BYTES));
      if r.Again? {
        continue;
      }
      if r.Fault? {
        return false, left;
      }
      if r.bytes == [] {
        return true, left;
      }
      if |r.bytes| > left {
        return false, left;
      }
      var wrote := WritePiece(reader.stream, start, before, at, r.bytes, writer);
      if !wrote {
        return false, left;
      }
      left := left - |r.bytes|;
    }
  }

  method WritePiece(ghost stream: seq<byte>, ghost start: nat, ghost before: seq<byte>, ghost at: nat,
                    bytes: seq<byte>, writer: Writer)
    returns (ok: bool)
    requires Copied(writer.data, before, stream, start, at)
    requires at + |bytes| <= |stream| && bytes == stream[at..at + |bytes|]
    modifies writer
    ensures ok <==> |bytes| <= old(writer.room)
    ensures ok ==> Copied(writer.data, before, stream, start, at + |bytes|)
                   && writer.room == old(writer.room) - |bytes|
    ensures !ok ==> exists end :: at <= end <= at + |bytes| && Copied(writer.data, before, stream, start, end)
  {
    ghost var was := writer.data;
    ok := writer.WriteAll(bytes);
    if ok {
      CopiedMore(was, before, stream, start, at, at + |bytes|);
    } else {
      ghost var k: nat :| k <= |bytes| && writer.data == was + bytes[..k];
      CopiedMore(was, before, stream, start, at, at + k);
      assert bytes[..k] == stream[at..at + k];
    }
  }

  /** The per-entry ceiling is an inner budget; the shared one is charged with
      exactly what the inner one lost, on failure too. */
  method CopyEntryBounded(reader: Reader, writer: Writer, remaining: nat, maxEntryBytes: nat)
    returns (ok: bool, left: nat)
    requires reader.Valid()
    modifies reader, writer
    ensures reader.Valid() && left <= remaining && remaining - left <= maxEntryBytes
    ensures ok ==> && Copied(writer.data, old(writer.data), reader.stream, old(reader.position), |reader.stream|)
                   && left == remaining - (|reader.stream| - old(reader.position))
                   && |reader.stream| - old(reader.position) <= Min(maxEntryBytes, old(writer.room))
    ensures !ok ==> exists end :: && old(reader.position) + (remaining - left) <= end
                                  && end <= old(reader.position) + Min(remaining, maxEntryBytes)
                                  && Copied(writer.data, old(writer.data), reader.stream, old(reader.position), end)
    ensures var size := |reader.stream| - old(reader.position);
            Broken !in old(reader.script) ==>
              (ok <==> size <= remaining && size <= maxEntryBytes && size <= old(writer.room))
  {
    var before := Min(remaining, maxEntryBytes);
    var entryLeft;
    ok, entryLeft := CopyBounded(reader, writer, before);
    left := remaining - (before - entryLeft);
  }

  // ---- the entry loop

  datatype Limits = Limits(maxOutputBytes: nat, maxEntryBytes: nat, maxMetadataBytes: nat,
                           maxPathBytes: nat, maxLinkSteps: nat, dangling: DanglingLinks)

  datatype EntryKind = SymlinkEntry | DirectoryEntry | FileEntry

  /** One archive member: a spelled name with its encoded length and whether
      it holds a refused character, an untrusted declared size and the bytes
      that really come out; `room` is what the file system lets us write. */
  datatype Entry = Entry(name: RawPath, nameBytes: nat, unsafeName: bool, kind: EntryKind,
                         declared: nat, payload: seq<byte>, script: seq<ReadStep>, room: nat)

  /** The normal components of a name, if it has some and nothing else. */
  function RelativePath(e: Entry, limit: nat): Option<Path> {
    if e.nameBytes > limit || e.unsafeName then None
    else
      var p := NormalNames(Components(e.name));
      if p == None || p == Some([]) then None else p
  }

  function NormalNames(components: seq<Component>): Option<Path> {
    if components == [] then Some([])
    else
      var rest := NormalNames(components[1..]);
      match components[0]
      case CurDir => rest
      case Normal(name) => if rest.None? then None else Some([name] + rest.value)
      case _ => None
  }

  /** Where an entry lands, from its spelling alone: at its names, in order, and
      nowhere if it is too long, holds a refused character, goes up, starts at
      the root or has no name. */
  lemma EntriesLandAtTheirNames(e: Entry, limit: nat)
    ensures RelativePath(e, limit)
         == if || e.nameBytes > limit || e.unsafeName || DotDot in e.name
               || (|e.name| >= 2 && e.name[0] == Empty) || NamesIn(e.name) == []
            then None else Some(NamesIn(e.name))
  {
    NamesOfBody(e.name);
  }

  lemma {:induction false} NamesOfBody(segments: seq<Segment>)
    ensures NormalNames(Body(segments)) == if DotDot in segments then None else Some(NamesIn(segments))
    decreases |segments|
  {
    if segments != [] {
      NamesOfBody(segments[1..]);
      assert segments == [segments[0]] + segments[1..];
      if segments[0].Named? || segments[0].DotDot? {
        assert Body(segments)[1..] == Body(segments[1..]);
      } else {
        assert [] + NamesIn(segments[1..]) == NamesIn(segments[1..]);
      }
    }
  }

  /** A file as extracted, in extraction order. */
  datatype Stored = Stored(path: Path, data: seq<byte>)

  function StoredBytes(files: seq<Stored>): nat {
    if files == [] then 0 else StoredBytes(files[..|files| - 1]) + |files[|files| - 1].data|
  }

  function TargetBytes(targets: seq<seq<byte>>): nat {
    if targets == [] then 0 else TargetBytes(targets[..|targets| - 1]) + |targets[|targets| - 1]|
  }

  lemma StoredBytesAppend(files: seq<Stored>, f: Stored)
    ensures StoredBytes(files + [f]) == StoredBytes(files) + |f.data|
  {
    assert (files + [f])[..|files|] == files;
  }

  lemma TargetBytesAppend(targets: seq<seq<byte>>, t: seq<byte>)
    ensures TargetBytes(targets + [t]) == TargetBytes(targets) + |t|
  {
    assert (targets + [t])[..|targets|] == targets;
  }

  /** A link target read whole, if it fits the allowance. */
  method ReadTarget(e: Entry, allowed: nat) returns (ok: bool, bytes: seq<byte>)
    ensures ok ==> bytes == e.payload && |bytes| <= allowed
    ensures Broken !in e.script ==> (ok <==> |e.payload| <= allowed)
  {
    var reader := new Reader(e.payload, e.script);
    var buffer := new Writer(|e.payload|);
    var left;
    ok, left := CopyBounded(reader, buffer, allowed);
    assert e.payload[0..|e.payload|] == e.payload && [] + e.payload == e.payload;
    bytes := buffer.data;
  }

  /** A file's bytes as written; `left` is what remains of the shared budget. */
  method WriteFile(e: Entry, remaining: nat, maxEntryBytes: nat) returns (ok: bool, data: seq<byte>, left: nat)
    ensures left <= remaining && |data| <= maxEntryBytes && |data| <= remaining
    ensures ok ==> data == e.payload && left == remaining - |data| && |data| <= e.room
    ensures !ok ==> data <= e.payload && remaining - left <= |data|
    ensures Broken !in e.script ==>
              (ok <==> |e.payload| <= remaining && |e.payload| <= maxEntryBytes && |e.payload| <= e.room)
  {
    var reader := new Reader(e.payload, e.script);
    var writer := new Writer(e.room);
    ok, left := CopyEntryBounded(reader, writer, remaining, maxEntryBytes);
    data := writer.data;
    assert e.payload[0..|e.payload|] == e.payload;
    if !ok {
      ghost var end :| && remaining - left <= end <= Min(remaining, maxEntryBytes)
                       && Copied(data, [], e.payload, 0, end);
      assert data == e.payload[0..end];
    }
  }

  // ---- the entry loop, as a function of the entries

  /** What extraction has done so far; links are kept in key order. */
  datatype Progress = Progress(remaining: nat, linkBytes: nat, tree: Tree, links: Links, linkOrder: seq<Path>,
                               files: seq<Stored>, targets: seq<seq<byte>>)

  function Begin(limits: Limits): Progress {
    Progress(limits.maxOutputBytes, limits.maxMetadataBytes, map[[] := Dir], map[], [], [], [])
  }

  function Allowance(p: Progress, limits: Limits): nat {
    Min(Min(limits.maxPathBytes, p.linkBytes), Min(p.remaining, limits.maxEntryBytes))
  }

  /** `parse` is the UTF-8 and character check on a link target. */
  function AcceptSymlink(p: Progress, e: Entry, at: Path, limits: Limits, parse: seq<byte> -> Option<RawPath>)
    : Option<Progress>
  {
    var n := |e.payload|;
    if n > Allowance(p, limits) || parse(e.payload).None? || at in p.links then None
    else Some(p.(remaining := p.remaining - n, linkBytes := p.linkBytes - n,
                 links := p.links[at := Link(parse(e.payload).value, false)],
                 linkOrder := InKeyOrder(p.linkOrder, at), targets := p.targets + [e.payload]))
  }

  function AcceptDirectory(p: Progress, at: Path): Option<Progress> {
    if CanMakeDirs(p.tree, at) then Some(p.(tree := MakeDirs(p.tree, at))) else None
  }

  function AcceptFile(p: Progress, e: Entry, at: Path, limits: Limits): Option<Progress>
    requires at != []
  {
    var n := |e.payload|;
    if e.declared > p.remaining || !CanMakeDirs(p.tree, Parent(at)) then None
    else
      var tree := MakeDirs(p.tree, Parent(at));
      if at in tree || n > p.remaining || n > limits.maxEntryBytes || n > e.room then None
      else Some(p.(remaining := p.remaining - n, tree := tree[at := File(|p.files|)],
                   files := p.files + [Stored(at, e.payload)]))
  }

  function Accept(p: Progress, e: Entry, limits: Limits, parse: seq<byte> -> Option<RawPath>): Option<Progress> {
    var at := RelativePath(e, limits.maxPathBytes);
    if e.declared > limits.maxEntryBytes || at.None? then None
    else match e.kind
      case SymlinkEntry => AcceptSymlink(p, e, at.value, limits, parse)
      case DirectoryEntry => AcceptDirectory(p, at.value)
      case FileEntry => AcceptFile(p, e, at.value, limits)
  }

  /** A name that leads somewhere below the destination. */
  ghost predicate IsRelative(e: Entry, limit: nat) {
    && e.nameBytes <= limit && !e.unsafeName && DotDot !in e.name
    && !(|e.name| >= 2 && e.name[0] == Empty) && NamesIn(e.name) != []
  }

  /** No file among the first `n` directories on the way to `at`. */
  ghost predicate IsClear(tree: Tree, at: Path, n: nat) {
    forall i :: 0 <= i <= n <= |at| && at[..i] in tree ==> tree[at[..i]].Dir?
  }

  /** Which entries are extracted, by their fields and what is there already. */
  ghost predicate IsAcceptableEntry(p: Progress, e: Entry, limits: Limits, parse: seq<byte> -> Option<RawPath>) {
    var at, n := NamesIn(e.name), |e.payload|;
    && e.declared <= limits.maxEntryBytes && IsRelative(e, limits.maxPathBytes)
    && match e.kind
       case SymlinkEntry =>
         && n <= limits.maxPathBytes && n <= p.linkBytes && n <= p.remaining && n <= limits.maxEntryBytes
         && parse(e.payload).Some? && at !in p.links
       case DirectoryEntry => IsClear(p.tree, at, |at|)
       case FileEntry =>
         && e.declared <= p.remaining && n <= p.remaining && n <= limits.maxEntryBytes && n <= e.room
         && IsClear(p.tree, at, |at| - 1) && at !in p.tree
  }

  /** An entry is accepted exactly if it is acceptable, and then adds what it
      says at its names: the link, the directory or the file with its bytes. */
  lemma EntriesAreAcceptedExactly(p: Progress, e: Entry, limits: Limits, parse: seq<byte> -> Option<RawPath>)
    ensures Accept(p, e, limits, parse).Some? <==> IsAcceptableEntry(p, e, limits, parse)
    ensures Accept(p, e, limits, parse).Some? ==>
              var q, at := Accept(p, e, limits, parse).value, NamesIn(e.name);
              match e.kind
              case SymlinkEntry =>
                && q.links == p.links[at := Link(parse(e.payload).value, false)]
                && q.targets == p.targets + [e.payload] && q.tree == p.tree && q.files == p.files
              case DirectoryEntry => IsDir(q.tree, at) && q.files == p.files && q.links == p.links
              case FileEntry =>
                && q.files == p.files + [Stored(at, e.payload)] && at in q.tree && q.tree[at] == File(|p.files|)
                && q.links == p.links
  {
    hide CanMakeDirs, MakeDirs, RelativePath, NamesIn, InKeyOrder;
    var at := NamesIn(e.name);
    EntriesLandAtTheirNames(e, limits.maxPathBytes);
    if e.declared <= limits.maxEntryBytes && IsRelative(e, limits.maxPathBytes) {
      if e.kind.DirectoryEntry? {
        DirectoriesAreAcceptedExactly(p, at);
      } else if e.kind.FileEntry? {
        FilesAreAcceptedExactly(p, e, at, limits);
      }
    }
  }

  lemma DirectoriesAreAcceptedExactly(p: Progress, at: Path)
    ensures AcceptDirectory(p, at).Some? <==> IsClear(p.tree, at, |at|)
    ensures AcceptDirectory(p, at).Some? ==> IsDir(AcceptDirectory(p, at).value.tree, at)
  {
    hide CanMakeDirs, MakeDirs;
    DirsCanBeMadeExactly(p.tree, at);
    if CanMakeDirs(p.tree, at) {
      MakeDirsAddsOnlyDirectories(p.tree, at);
      assert at[..|at|] == at;
    }
  }

  lemma FilesAreAcceptedExactly(p: Progress, e: Entry, at: Path, limits: Limits)
    requires at != []
    ensures AcceptFile(p, e, at, limits).Some?
            <==> && e.declared <= p.remaining && |e.payload| <= p.remaining && |e.payload| <= limits.maxEntryBytes
                 && |e.payload| <= e.room && IsClear(p.tree, at, |at| - 1) && at !in p.tree
  {
    hide CanMakeDirs, MakeDirs;
    DirsCanBeMadeExactly(p.tree, Parent(at));
    assert forall i :: 0 <= i < |at| ==> Parent(at)[..i] == at[..i];
    if CanMakeDirs(p.tree, Parent(at)) {
      MakeDirsAddsOnlyDirectories(p.tree, Parent(at));
    }
  }

  function AcceptAll(p: Progress, entries: seq<Entry>, limits: Limits, parse: seq<byte> -> Option<RawPath>)
    : Option<Progress>
    decreases |entries|
  {
    if entries == [] then Some(p)
    else match Accept(p, entries[0], limits, parse)
      case None => None
      case Some(q) => AcceptAll(q, entries[1..], limits, parse)
  }

  /** No read of the entry fails for good; short and interrupted ones may come. */
  predicate Unbroken(e: Entry) {
    Broken !in e.script
  }

  predicate NameBefore(a: Name, b: Name) {
    b != [] && (a == [] || a[0] < b[0] || (a[0] == b[0] && NameBefore(a[1..], b[1..])))
  }

  predicate PathBefore(a: Path, b: Path) {
    b != [] && (a == [] || NameBefore(a[0], b[0]) || (a[0] == b[0] && PathBefore(a[1..], b[1..])))
  }

  function InKeyOrder(order: seq<Path>, at: Path): seq<Path> {
    if order == [] || PathBefore(at, order[0]) then [at] + order else [order[0]] + InKeyOrder(order[1..], at)
  }

  // ---- the order links are installed in

  /** The first name that differs decides, by its first character that differs;
      what ends sooner comes sooner. */
  ghost predicate Precedes(a: Path, b: Path) {
    exists k :: 0 <= k <= |a| && k < |b| && a[..k] == b[..k] && (k == |a| || Spelt(a[k], b[k]))
  }

  ghost predicate Spelt(a: Name, b: Name) {
    exists k :: 0 <= k <= |a| && k < |b| && a[..k] == b[..k] && (k == |a| || a[k] < b[k])
  }

  ghost predicate Ascending(order: seq<Path>) {
    forall i, j :: 0 <= i < j < |order| ==> Precedes(order[i], order[j])
  }

  lemma {:induction false} NamesCompareBySpelling(a: Name, b: Name)
    requires NameBefore(a, b)
    ensures Spelt(a, b)
    decreases |a|
  {
    if a == [] {
      assert a[..0] == b[..0];
    } else if a[0] < b[0] {
      assert a[..0] == b[..0];
    } else {
      NamesCompareBySpelling(a[1..], b[1..]);
      var k :| && 0 <= k <= |a[1..]| && k < |b[1..]| && a[1..][..k] == b[1..][..k]
               && (k == |a[1..]| || a[1..][k] < b[1..][k]);
      assert a[..k + 1] == [a[0]] + a[1..][..k] && b[..k + 1] == [b[0]] + b[1..][..k];
    }
  }

  lemma {:induction false} PathsCompareByNames(a: Path, b: Path)
    requires PathBefore(a, b)
    ensures Precedes(a, b)
    decreases |a|
  {
    hide NameBefore, Spelt;
    if a == [] {
      assert a[..0] == b[..0];
    } else if NameBefore(a[0], b[0]) {
      NamesCompareBySpelling(a[0], b[0]);
      assert a[..0] == b[..0];
    } else {
      PathsCompareByNames(a[1..], b[1..]);
      var k :| && 0 <= k <= |a[1..]| && k < |b[1..]| && a[1..][..k] == b[1..][..k]
               && (k == |a[1..]| || Spelt(a[1..][k], b[1..][k]));
      assert a[..k + 1] == [a[0]] + a[1..][..k] && b[..k + 1] == [b[0]] + b[1..][..k];
    }
  }

  lemma {:induction false} NamesAreOrdered(a: Name, b: Name, c: Name)
    ensures a == b || NameBefore(a, b) || NameBefore(b, a)
    ensures NameBefore(a, b) && NameBefore(b, c) ==> NameBefore(a, c)
    decreases |a|
  {
    if a != [] && b != [] {
      assert a[0] == b[0] && a[1..] == b[1..] ==> a == [a[0]] + a[1..] == b;
      NamesAreOrdered(a[1..], b[1..], if c == [] then [] else c[1..]);
    }
  }

  lemma {:induction false} PathsAreOrdered(a: Path, b: Path, c: Path)
    ensures a == b || PathBefore(a, b) || PathBefore(b, a)
    ensures PathBefore(a, b) && PathBefore(b, c) ==> PathBefore(a, c)
    decreases |a|
  {
    hide NameBefore;
    if a != [] && b != [] {
      assert a[0] == b[0] && a[1..] == b[1..] ==> a == [a[0]] + a[1..] == b;
      PathsAreOrdered(a[1..], b[1..], if c == [] then [] else c[1..]);
      NamesAreOrdered(a[0], b[0], if c == [] then [] else c[0]);
    }
  }

  ghost predicate InOrder(order: seq<Path>) {
    forall i, j :: 0 <= i < j < |order| ==> PathBefore(order[i], order[j])
  }

  lemma {:induction false} InsertedInOrder(order: seq<Path>, at: Path)
    requires InOrder(order) && at !in order
    ensures InOrder(InKeyOrder(order, at))
    ensures forall p :: p in InKeyOrder(order, at) <==> p == at || p in order
    decreases |order|
  {
    hide PathBefore;
    if order != [] {
      var first, rest := order[0], order[1..];
      assert order == [first] + rest;
      PathsAreOrdered(at, first, at);
      if PathBefore(at, first) {
        forall p | p in rest ensures PathBefore(at, p) {
          PathsAreOrdered(at, first, p);
        }
      } else {
        InsertedInOrder(rest, at);
        var longer := InKeyOrder(rest, at);
        assert forall p :: p in longer ==> PathBefore(first, p);
        assert InKeyOrder(order, at) == [first] + longer;
      }
    }
  }

  /** Whatever order the archive has its links in, they are kept, and later
      installed, in the order of their paths. */
  lemma {:induction false} LinksComeInPathOrder(p: Progress, entries: seq<Entry>, limits: Limits,
                                                parse: seq<byte> -> Option<RawPath>)
    requires InOrder(p.linkOrder) && (forall at :: at in p.linkOrder <==> at in p.links)
    requires AcceptAll(p, entries, limits, parse).Some?
    ensures var q := AcceptAll(p, entries, limits, parse).value;
            Ascending(q.linkOrder) && forall at :: at in q.linkOrder <==> at in q.links
    decreases |entries|
  {
    hide InKeyOrder, PathBefore, Allowance, RelativePath, CanMakeDirs, MakeDirs, Precedes;
    if entries == [] {
      forall i, j | 0 <= i < j < |p.linkOrder| ensures Precedes(p.linkOrder[i], p.linkOrder[j]) {
        PathsCompareByNames(p.linkOrder[i], p.linkOrder[j]);
      }
    } else {
      var at := RelativePath(entries[0], limits.maxPathBytes);
      if entries[0].kind.SymlinkEntry? && at.Some? && at.value !in p.links {
        InsertedInOrder(p.linkOrder, at.value);
      }
      LinksComeInPathOrder(Accept(p, entries[0], limits, parse).value, entries[1..], limits, parse);
    }
  }

  // ---- what extraction keeps

  /** Structure of a partial extraction. */
  ghost predicate Structured(p: Progress, limits: Limits) {
    && WellFormed(p.tree)
    && Enumerates(p.linkOrder, p.links) && [] !in p.linkOrder
    && (forall f :: f in p.files ==> f.path in p.tree && p.tree[f.path].File? && |f.data| <= limits.maxEntryBytes)
    && (forall t :: t in p.targets ==> |t| <= limits.maxEntryBytes && |t| <= limits.maxPathBytes)
  }

  /** Every byte written is charged once: files and link targets to the output
      budget, link targets to the metadata budget as well. */
  ghost predicate Charged(p: Progress, limits: Limits) {
    && StoredBytes(p.files) + TargetBytes(p.targets) + p.remaining == limits.maxOutputBytes
    && TargetBytes(p.targets) + p.linkBytes == limits.maxMetadataBytes
  }

  lemma {:induction false} KeyOrderMembers(order: seq<Path>, at: Path)
    ensures multiset(InKeyOrder(order, at)) == multiset(order) + multiset{at}
    decreases |order|
  {
    if order != [] && !PathBefore(at, order[0]) {
      KeyOrderMembers(order[1..], at);
      assert order == [order[0]] + order[1..];
    }
  }

  lemma {:induction false} OnceEach(order: seq<Path>, p: Path)
    ensures p in order <==> multiset(order)[p] > 0
    ensures (forall i, j :: 0 <= i < j < |order| ==> order[i] != order[j]) ==> multiset(order)[p] <= 1
    decreases |order|
  {
    if order != [] {
      assert order == [order[0]] + order[1..];
      OnceEach(order[1..], p);
    }
  }

  lemma SeenTwice(order: seq<Path>, i: nat, j: nat)
    requires i < j < |order| && order[i] == order[j]
    ensures multiset(order)[order[i]] >= 2
  {
    assert order == order[..j] + [order[j]] + order[j + 1..];
    assert order[..j][i] == order[i];
  }

  lemma EnumeratesOneMore(order: seq<Path>, links: Links, at: Path, link: Link)
    requires Enumerates(order, links) && at !in links
    ensures Enumerates(InKeyOrder(order, at), links[at := link])
  {
    var longer := InKeyOrder(order, at);
    KeyOrderMembers(order, at);
    forall p ensures p in longer <==> p in links[at := link] {
      OnceEach(order, p);
      OnceEach(longer, p);
    }
    forall i, j | 0 <= i < j < |longer| ensures longer[i] != longer[j] {
      if longer[i] == longer[j] {
        OnceEach(order, longer[i]);
        SeenTwice(longer, i, j);
        assert false;
      }
    }
  }

  lemma FileKeepsTreeWellFormed(tree: Tree, at: Path, inode: nat)
    requires WellFormed(tree) && at != [] && at !in tree && IsDir(tree, Parent(at))
    ensures WellFormed(tree[at := File(inode)])
  {
    forall p | p in tree && p != []
      ensures Parent(p) != at
    {
      assert Parent(p) in tree;
    }
  }

  lemma ParentMade(tree: Tree, at: Path)
    requires WellFormed(tree) && at != [] && CanMakeDirs(tree, Parent(at))
    ensures var made := MakeDirs(tree, Parent(at));
            WellFormed(made) && AddsOnlyDirectories(tree, made) && IsDir(made, Parent(at))
  {
    MakeDirsAddsOnlyDirectories(tree, Parent(at));
    assert Parent(at)[..|Parent(at)|] == Parent(at);
  }

  lemma SymlinkKeeps(p: Progress, e: Entry, at: Path, limits: Limits, parse: seq<byte> -> Option<RawPath>)
    requires Structured(p, limits) && Charged(p, limits) && at != []
    requires AcceptSymlink(p, e, at, limits, parse).Some?
    ensures var q := AcceptSymlink(p, e, at, limits, parse).value;
            Structured(q, limits) && Charged(q, limits)
  {
    TargetBytesAppend(p.targets, e.payload);
    EnumeratesOneMore(p.linkOrder, p.links, at, Link(parse(e.payload).value, false));
    KeyOrderMembers(p.linkOrder, at);
    OnceEach(p.linkOrder, []);
    OnceEach(InKeyOrder(p.linkOrder, at), []);
  }

  lemma FileKeeps(p: Progress, e: Entry, at: Path, limits: Limits)
    requires Structured(p, limits) && Charged(p, limits) && at != []
    requires AcceptFile(p, e, at, limits).Some?
    ensures var q := AcceptFile(p, e, at, limits).value;
            Structured(q, limits) && Charged(q, limits)
  {
    ParentMade(p.tree, at);
    FileKeepsTreeWellFormed(MakeDirs(p.tree, Parent(at)), at, |p.files|);
    StoredBytesAppend(p.files, Stored(at, e.payload));
  }

  /** Every accepted entry keeps the structure and the accounts. */
  lemma AcceptKeeps(p: Progress, e: Entry, limits: Limits, parse: seq<byte> -> Option<RawPath>)
    requires Structured(p, limits) && Charged(p, limits)
    requires Accept(p, e, limits, parse).Some?
    ensures var q := Accept(p, e, limits, parse).value;
            Structured(q, limits) && Charged(q, limits)
  {
    var at := RelativePath(e, limits.maxPathBytes).value;
    match e.kind
    case SymlinkEntry => SymlinkKeeps(p, e, at, limits, parse);
    case DirectoryEntry => MakeDirsAddsOnlyDirectories(p.tree, at);
    case FileEntry => FileKeeps(p, e, at, limits);
  }

  /** The file an entry turns into, if its name is acceptable. */
  function StoredAs(e: Entry, limits: Limits): seq<Stored> {
    match RelativePath(e, limits.maxPathBytes)
    case None => []
    case Some(p) => if e.kind.FileEntry? then [Stored(p, e.payload)] else []
  }

  function TargetOf(e: Entry): seq<seq<byte>> {
    if e.kind.SymlinkEntry? then [e.payload] else []
  }

  function AllStored(entries: seq<Entry>, limits: Limits): seq<Stored> {
    if entries == [] then [] else StoredAs(entries[0], limits) + AllStored(entries[1..], limits)
  }

  function AllTargets(entries: seq<Entry>): seq<seq<byte>> {
    if entries == [] then [] else TargetOf(entries[0]) + AllTargets(entries[1..])
  }

  lemma AcceptAppends(p: Progress, e: Entry, limits: Limits, parse: seq<byte> -> Option<RawPath>)
    requires Accept(p, e, limits, parse).Some?
    ensures Accept(p, e, limits, parse).value.files == p.files + StoredAs(e, limits)
    ensures Accept(p, e, limits, parse).value.targets == p.targets + TargetOf(e)
  {
  }

  lemma {:induction false} ExtractionKeeps(p: Progress, entries: seq<Entry>, limits: Limits,
                                           parse: seq<byte> -> Option<RawPath>)
    requires Structured(p, limits) && Charged(p, limits)
    requires AcceptAll(p, entries, limits, parse).Some?
    ensures var q := AcceptAll(p, entries, limits, parse).value;
            && Structured(q, limits) && Charged(q, limits)
            && q.files == p.files + AllStored(entries, limits)
            && q.targets == p.targets + AllTargets(entries)
    decreases |entries|
  {
    if entries == [] {
      assert p.files + [] == p.files && p.targets + [] == p.targets;
    } else {
      AcceptKeeps(p, entries[0], limits, parse);
      AcceptAppends(p, entries[0], limits, parse);
      var q := Accept(p, entries[0], limits, parse).value;
      ExtractionKeeps(q, entries[1..], limits, parse);
      Regroup(p.files, StoredAs(entries[0], limits), AllStored(entries[1..], limits));
      Regroup(p.targets, TargetOf(entries[0]), AllTargets(entries[1..]));
    }
  }

  /** A whole extraction: each file and each link target is exactly its entry's
      payload, in order, and together they used exactly what the budgets lost. */
  lemma ExtractionIsCharged(entries: seq<Entry>, limits: Limits, parse: seq<byte> -> Option<RawPath>)
    requires AcceptAll(Begin(limits), entries, limits, parse).Some?
    ensures var q := AcceptAll(Begin(limits), entries, limits, parse).value;
            && Structured(q, limits)
            && q.files == AllStored(entries, limits) && q.targets == AllTargets(entries)
            && StoredBytes(AllStored(entries, limits)) + TargetBytes(AllTargets(entries))
               == limits.maxOutputBytes - q.remaining
            && TargetBytes(AllTargets(entries)) == limits.maxMetadataBytes - q.linkBytes
  {
    ExtractionKeeps(Begin(limits), entries, limits, parse);
  }

  // ---- the loop as written

  /** What a refused entry may leave behind: new directories and at most one
      file, holding a beginning of the entry's payload. */
  ghost predicate Leftover(before: Progress, after: Progress, e: Entry) {
    && after.targets == before.targets
    && (forall q :: q in before.tree ==> q in after.tree && after.tree[q] == before.tree[q])
    && (after.files == before.files
        || exists f :: after.files == before.files + [f] && f.data <= e.payload
                       && f.path in after.tree && after.tree[f.path].File?)
  }

  /** Everything before entry `n` was extracted; that entry was refused. */
  ghost predicate StoppedAt(start: Progress, entries: seq<Entry>, limits: Limits,
                            parse: seq<byte> -> Option<RawPath>, n: nat, after: Progress) {
    && n < |entries| && AcceptAll(start, entries[..n], limits, parse).Some?
    && Leftover(AcceptAll(start, entries[..n], limits, parse).value, after, entries[n])
  }

  lemma {:induction false} AcceptOneMore(p: Progress, entries: seq<Entry>, limits: Limits,
                                         parse: seq<byte> -> Option<RawPath>, n: nat)
    requires n < |entries| && AcceptAll(p, entries[..n], limits, parse).Some?
    ensures AcceptAll(p, entries[..n + 1], limits, parse)
         == Accept(AcceptAll(p, entries[..n], limits, parse).value, entries[n], limits, parse)
    decreases n
  {
    if n > 0 {
      assert entries[..n][1..] == entries[1..][..n - 1] && entries[..n + 1][1..] == entries[1..][..n];
      AcceptOneMore(Accept(p, entries[0], limits, parse).value, entries[1..], limits, parse, n - 1);
    } else {
      assert entries[..1][1..] == [] && entries[..0] == [];
    }
  }

  class Extraction {
    const limits: Limits
    var remaining: nat
    var linkBytes: nat
    var tree: Tree
    var links: Links
    var linkOrder: seq<Path>
    var files: seq<Stored>
    var targets: seq<seq<byte>>

    constructor (limits: Limits)
      ensures this.limits == limits && View() == Begin(limits)
    {
      this.limits := limits;
      remaining := limits.maxOutputBytes;
      linkBytes := limits.maxMetadataBytes;
      tree := map[[] := Dir];
      links := map[];
      linkOrder := [];
      files := [];
      targets := [];
    }

    ghost function View(): Progress
      reads this
    {
      Progress(remaining, linkBytes, tree, links, linkOrder, files, targets)
    }

    /** Never more on disk and in memory than the output ceiling, failed
        entries included. */
    ghost predicate Bounded()
      reads this
    {
      StoredBytes(files) + TargetBytes(targets) <= limits.maxOutputBytes
    }

    method ExtractSymlink(e: Entry, at: Path, parse: seq<byte> -> Option<RawPath>) returns (ok: bool)
      modifies this
      ensures ok ==> AcceptSymlink(old(View()), e, at, limits, parse) == Some(View())
      ensures Unbroken(e) ==> (ok <==> AcceptSymlink(old(View()), e, at, limits, parse).Some?)
      ensures !ok ==> Leftover(old(View()), View(), e) && files == old(files)
    {
      var allowed := Min(Min(limits.maxPathBytes, linkBytes), Min(remaining, limits.maxEntryBytes));
      var bytes;
      ok, bytes := ReadTarget(e, allowed);
      if !ok {
        return;
      }
      linkBytes := linkBytes - |bytes|;
      remaining := remaining - |bytes|;
      var target := parse(bytes);
      if target.None? {
        return false;
      }
      var duplicate := at in links;
      links := links[at := Link(target.value, false)];
      if duplicate {
        return false;
      }
      linkOrder := InKeyOrder(linkOrder, at);
      targets := targets + [bytes];
    }

    method ExtractDirectory(at: Path) returns (ok: bool)
      modifies this`tree
      ensures ok <==> CanMakeDirs(old(tree), at)
      ensures tree == if ok then MakeDirs(old(tree), at) else old(tree)
    {
      ok := CanMakeDirs(tree, at);
      if ok {
        tree := MakeDirs(tree, at);
      }
    }

    method ExtractFile(e: Entry, at: Path) returns (ok: bool)
      requires Charged(View(), limits) && at != []
      modifies this
      ensures ok ==> AcceptFile(old(View()), e, at, limits) == Some(View())
      ensures Unbroken(e) ==> (ok <==> AcceptFile(old(View()), e, at, limits).Some?)
      ensures !ok ==> Leftover(old(View()), View(), e)
      ensures Bounded()
    {
      hide CanMakeDirs, MakeDirs, StoredBytes, TargetBytes;
      if e.declared > remaining {
        return false;
      }
      if CanMakeDirs(tree, Parent(at)) {
        MakeDirsAddsOnlyDirectories(tree, Parent(at));
      }
      ok := ExtractDirectory(Parent(at));
      if !ok || at in tree {
        return false;
      }
      ghost var data;
      ok, data := StoreFile(e, at);
      assert files == old(files) + [Stored(at, data)];
    }

    /** The file with what could be written of it. */
    method StoreFile(e: Entry, at: Path) returns (ok: bool, ghost data: seq<byte>)
      requires Charged(View(), limits)
      modifies this`tree, this`files, this`remaining
      ensures tree == old(tree)[at := File(|old(files)|)] && files == old(files) + [Stored(at, data)]
      ensures data <= e.payload && (ok ==> data == e.payload && remaining == old(remaining) - |data|)
      ensures ok ==> |data| <= old(remaining) && |data| <= limits.maxEntryBytes && |data| <= e.room
      ensures Unbroken(e) ==> (ok <==> && |e.payload| <= old(remaining) && |e.payload| <= limits.maxEntryBytes
                                       && |e.payload| <= e.room)
      ensures Bounded()
    {
      var bytes, left;
      ok, bytes, left := WriteFile(e, remaining, limits.maxEntryBytes);
      data := bytes;
      StoredBytesAppend(files, Stored(at, bytes));
      tree := tree[at := File(|files|)];
      files := files + [Stored(at, bytes)];
      remaining := left;
    }

    method ExtractEntry(e: Entry, parse: seq<byte> -> Option<RawPath>) returns (ok: bool)
      requires Charged(View(), limits)
      modifies this
      ensures ok ==> Accept(old(View()), e, limits, parse) == Some(View())
      ensures Unbroken(e) ==> (ok <==> Accept(old(View()), e, limits, parse).Some?)
      ensures !ok ==> Bounded() && Leftover(old(View()), View(), e)
    {
      ok := false;
      if e.declared > limits.maxEntryBytes {
        return;
      }
      var at := RelativePath(e, limits.maxPathBytes);
      if at.None? {
        return;
      }
      match e.kind
      case SymlinkEntry => ok := ExtractSymlink(e, at.value, parse);
      case DirectoryEntry => ok := ExtractDirectory(at.value);
      case FileEntry => ok := ExtractFile(e, at.value);
    }

    /** The whole loop: it ends well exactly when every entry is acceptable, and
        otherwise stops at entry `count` with all before it extracted. */
    method ExtractEntries(entries: seq<Entry>, parse: seq<byte> -> Option<RawPath>) returns (ok: bool, count: nat)
      requires Structured(View(), limits) && Charged(View(), limits)
      modifies this
      ensures count <= |entries| && (ok <==> count == |entries|)
      ensures ok ==> AcceptAll(old(View()), entries, limits, parse) == Some(View())
      ensures !ok ==> StoppedAt(old(View()), entries, limits, parse, count, View())
      ensures (forall e :: e in entries ==> Unbroken(e)) ==>
                (ok <==> AcceptAll(old(View()), entries, limits, parse).Some?)
      ensures Bounded()
    {
      count := 0;
      assert entries[..0] == [] && entries[0..] == entries;
      while count < |entries|
        invariant 0 <= count <= |entries|
        invariant Structured(View(), limits) && Charged(View(), limits)
        invariant AcceptAll(old(View()), entries[..count], limits, parse) == Some(View())
        invariant AcceptAll(old(View()), entries, limits, parse)
               == AcceptAll(View(), entries[count..], limits, parse)
      {
        assert entries[count..][0] == entries[count] && entries[count..][1..] == entries[count + 1..];
        ghost var before := View();
        ok := ExtractEntry(entries[count], parse);
        if !ok {
          return;
        }
        AcceptKeeps(before, entries[count], limits, parse);
        AcceptOneMore(old(View()), entries, limits, parse, count);
        count := count + 1;
      }
      assert entries[..count] == entries;
      ok := true;
    }
  }

  function PlanFor(p: Progress, limits: Limits): Plan
    requires [] !in p.linkOrder && forall at :: at in p.linkOrder ==> at in p.links
  {
    MakePlan(p.tree, p.links, p.linkOrder, limits.maxLinkSteps, limits.dangling)
  }

  /** Extraction followed by link installation, as the ZIP front end runs it:
      nothing is linked unless everything was extracted and validated, and
      otherwise the destination is what was extracted so far and directories. */
  method ExtractZip(entries: seq<Entry>, limits: Limits, parse: seq<byte> -> Option<RawPath>)
    returns (ok: bool, x: Extraction, dest: Destination)
    ensures fresh(x) && fresh(dest) && x.limits == limits && x.Bounded()
    ensures ok ==> AcceptAll(Begin(limits), entries, limits, parse) == Some(x.View()) && Structured(x.View(), limits)
    ensures ok ==> var plan := PlanFor(x.View(), limits);
                   && plan.Accepted? && Placeable(plan.tree, plan.placements)
                   && dest.nodes == WithHardLinks(plan.tree, plan.placements)
                   && dest.symlinks == WithSymlinks(plan.placements)
    ensures !ok ==> dest.symlinks == map[] && AddsOnlyDirectories(x.tree, dest.nodes)
    ensures !ok ==> AcceptAll(Begin(limits), entries, limits, parse) == Some(x.View())
                    || exists n :: StoppedAt(Begin(limits), entries, limits, parse, n, x.View())
    ensures (forall e :: e in entries ==> Unbroken(e)) ==>
              (ok <==> match AcceptAll(Begin(limits), entries, limits, parse)
                       case None => false
                       case Some(q) => Structured(q, limits) && PlanFor(q, limits).Accepted?)
  {
    hide AcceptAll, Leftover;
    x := new Extraction(limits);
    var count;
    ok, count := x.ExtractEntries(entries, parse);
    dest := new Destination(x.tree);
    if !ok {
      return;
    }
    ExtractionKeeps(Begin(limits), entries, limits, parse);
    var installed := dest.InstallLinks(x.links, x.linkOrder, limits.maxLinkSteps, limits.dangling);
    ok := installed.Done?;
  }
}
