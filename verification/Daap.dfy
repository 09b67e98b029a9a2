/** The DMAP tag tree of a now-playing record: the receiver's walk, and the tree every byte string spells. */
module Daap {
  import opened Words

  const MAX_DEPTH: nat := 4

  const MINM: seq<byte> := [0x6d, 0x69, 0x6e, 0x6d]
  const ASAR: seq<byte> := [0x61, 0x73, 0x61, 0x72]
  const ASAL: seq<byte> := [0x61, 0x73, 0x61, 0x6c]
  const ASTM: seq<byte> := [0x61, 0x73, 0x74, 0x6d]
  const MLIT: seq<byte> := [0x6d, 0x6c, 0x69, 0x74]
  const MCON: seq<byte> := [0x6d, 0x63, 0x6f, 0x6e]
  const MLCL: seq<byte> := [0x6d, 0x6c, 0x63, 0x6c]

  /** The containers the walk enters. */
  predicate Known(tag: seq<byte>) {
    tag == MLIT || tag == MCON || tag == MLCL
  }

  datatype Meta = Meta(title: seq<byte>, artist: seq<byte>, album: seq<byte>, duration: u32)

  const NO_META := Meta([], [], [], 0)

  /** What one leaf contributes. */
  function WithLeaf(m: Meta, tag: seq<byte>, data: seq<byte>): Meta {
    if tag == MINM then m.(title := data)
    else if tag == ASAR then m.(artist := data)
    else if tag == ASAL then m.(album := data)
    else if tag == ASTM && |data| == 4 then m.(duration := Word32(data, 0))
    else m
  }

  // ---------------------------------------------------------------------
  // The walk
  // ---------------------------------------------------------------------

  /** A whole entry stands at the front: tag, length, payload. */
  predicate HasEntry(s: seq<byte>) {
    |s| >= 8 && 8 + Word32(s, 4) <= |s|
  }

  function EntryTag(s: seq<byte>): seq<byte>
    requires HasEntry(s)
  {
    s[..4]
  }

  function Payload(s: seq<byte>): (p: seq<byte>)
    requires HasEntry(s)
    ensures |p| < |s|
  {
    s[8..8 + Word32(s, 4)]
  }

  function AfterEntry(s: seq<byte>): (r: seq<byte>)
    requires HasEntry(s)
    ensures |r| < |s|
  {
    s[8 + Word32(s, 4)..]
  }

  function Walk(s: seq<byte>, m: Meta, depth: nat): Meta
    decreases |s|
  {
    if depth > MAX_DEPTH || !HasEntry(s) then m
    else
      var after := if Known(EntryTag(s)) then Walk(Payload(s), m, depth + 1) else WithLeaf(m, EntryTag(s), Payload(s));
      Walk(AfterEntry(s), after, depth)
  }

  class DaapMetadata {
    var title: seq<byte>
    var artist: seq<byte>
    var album: seq<byte>
    var durationMs: u32

    function Now(): Meta
      reads this
    {
      Meta(title, artist, album, durationMs)
    }

    constructor ()
      ensures Now() == NO_META
    {
      title, artist, album, durationMs := [], [], [], 0;
    }

    method SetLeaf(tag: seq<byte>, data: seq<byte>)
      modifies this
      ensures Now() == WithLeaf(old(Now()), tag, data)
    {
      if tag == MINM {
        title := data;
      } else if tag == ASAR {
        artist := data;
      } else if tag == ASAL {
        album := data;
      } else if tag == ASTM && |data| == 4 {
        durationMs := data[0] as int * 0x100_0000 + data[1] as int * 0x1_0000 + data[2] as int * 0x100 + data[3] as int;
      }
    }
  }

  /** The record fits 32 bits, so the 32-bit sum by which the loop advances does not wrap. */
  method WalkChildren(s: seq<byte>, out: DaapMetadata, depth: nat)
    requires |s| < TWO32
    modifies out
    ensures out.Now() == Walk(s, old(out.Now()), depth)
    decreases |s|
  {
    hide WithLeaf, Known, EntryTag, HasEntry, Payload, AfterEntry;
    if depth > MAX_DEPTH {
      return;
    }
    var pos := 0;
    assert s[0..] == s;
    while pos + 8 <= |s|
      invariant 0 <= pos <= |s|
      invariant Walk(s[pos..], out.Now(), depth) == Walk(s, old(out.Now()), depth)
    {
      EntryAt(s, pos);
      var length := s[pos + 4] as int * 0x100_0000 + s[pos + 5] as int * 0x1_0000
                    + s[pos + 6] as int * 0x100 + s[pos + 7] as int;
      if 8 + length > |s| - pos {
        return;
      }
      var tag, data := s[pos..pos + 4], s[pos + 8..pos + 8 + length];
      if Known(tag) {
        WalkChildren(data, out, depth + 1);
      } else {
        out.SetLeaf(tag, data);
      }
      WrapNone(8 + length);
      pos := pos + Wrap32(8 + length);
    }
    TooShort(s[pos..]);
  }

  lemma TooShort(s: seq<byte>)
    requires |s| < 8
    ensures !HasEntry(s)
  {}

  lemma EntryAt(s: seq<byte>, pos: nat)
    requires pos + 8 <= |s|
    ensures HasEntry(s[pos..]) <==> 8 + Word32(s, pos + 4) <= |s| - pos
    ensures HasEntry(s[pos..]) ==>
              && EntryTag(s[pos..]) == s[pos..pos + 4]
              && Payload(s[pos..]) == s[pos + 8..pos + 8 + Word32(s, pos + 4)]
              && AfterEntry(s[pos..]) == s[pos + 8 + Word32(s, pos + 4)..]
  {
    var t := s[pos..];
    assert t[4] == s[pos + 4] && t[5] == s[pos + 5] && t[6] == s[pos + 6] && t[7] == s[pos + 7];
    assert Word32(t, 4) == Word32(s, pos + 4);
  }

  // ---------------------------------------------------------------------
  // The tags, spelled out
  // ---------------------------------------------------------------------

  /** The four bytes are the ASCII codes of the letters. */
  predicate Spells(tag: seq<byte>, name: string) {
    |tag| == |name| && forall i :: 0 <= i < |tag| ==> tag[i] == name[i] as int
  }

  lemma SpelledOut(tag: seq<byte>, name: string, bytes: seq<byte>)
    requires |name| == |bytes| == 4
    requires name[0] as int == bytes[0] && name[1] as int == bytes[1]
    requires name[2] as int == bytes[2] && name[3] as int == bytes[3]
    ensures Spells(tag, name) <==> tag == bytes
  {}

  lemma TagsSpelled(tag: seq<byte>)
    ensures Spells(tag, "minm") <==> tag == MINM
    ensures Spells(tag, "asar") <==> tag == ASAR
    ensures Spells(tag, "asal") <==> tag == ASAL
    ensures Spells(tag, "astm") <==> tag == ASTM
    ensures Spells(tag, "mlit") <==> tag == MLIT
    ensures Spells(tag, "mcon") <==> tag == MCON
    ensures Spells(tag, "mlcl") <==> tag == MLCL
  {
    SpelledOut(tag, "minm", MINM);
    SpelledOut(tag, "asar", ASAR);
    SpelledOut(tag, "asal", ASAL);
    SpelledOut(tag, "astm", ASTM);
    SpelledOut(tag, "mlit", MLIT);
    SpelledOut(tag, "mcon", MCON);
    SpelledOut(tag, "mlcl", MLCL);
  }

  /** Main result on containers: `mlit`, `mcon` and `mlcl` are entered, one level deeper each, down to the fourth. */
  lemma ContainerIsEntered(tag: seq<byte>, payload: seq<byte>, rest: seq<byte>, m: Meta, depth: nat)
    requires Spells(tag, "mlit") || Spells(tag, "mcon") || Spells(tag, "mlcl")
    requires |payload| < TWO32 && depth <= 4
    ensures Walk(Entry(tag, payload) + rest, m, depth)
            == Walk(rest, if depth < 4 then Walk(payload, m, depth + 1) else m, depth)
  {
    hide Entry, HasEntry, EntryTag, Payload, AfterEntry, WithLeaf;
    TagsSpelled(tag);
    EntryAtFront(tag, payload, rest);
    if depth == 4 {
      TooDeepToWalk(payload, m, depth + 1);
    }
  }

  lemma TooDeepToWalk(s: seq<byte>, m: Meta, depth: nat)
    requires depth > 4
    ensures Walk(s, m, depth) == m
  {}

  /** What a leaf says: text of its tag, or a duration of four bytes, most significant first; any other says nothing. */
  function Said(m: Meta, tag: seq<byte>, data: seq<byte>): Meta {
    if Spells(tag, "minm") then m.(title := data)
    else if Spells(tag, "asar") then m.(artist := data)
    else if Spells(tag, "asal") then m.(album := data)
    else if Spells(tag, "astm") && |data| == 4 then
      m.(duration := ((data[0] as int * 256 + data[1] as int) * 256 + data[2] as int) * 256 + data[3] as int)
    else m
  }

  /** Main result on leaves: every other tag is a leaf; nothing inside it is looked at. */
  lemma LeafIsTaken(tag: seq<byte>, data: seq<byte>, rest: seq<byte>, m: Meta, depth: nat)
    requires |tag| == 4 && !Spells(tag, "mlit") && !Spells(tag, "mcon") && !Spells(tag, "mlcl")
    requires |data| < TWO32 && depth <= 4
    ensures Walk(Entry(tag, data) + rest, m, depth) == Walk(rest, Said(m, tag, data), depth)
  {
    hide Entry, HasEntry, EntryTag, Payload, AfterEntry;
    TagsSpelled(tag);
    EntryAtFront(tag, data, rest);
  }

  /** The whole record: at least one field must have been found. */
  method ParseDaapMlit(body: seq<byte>, out: DaapMetadata) returns (found: bool)
    requires |body| < TWO32
    modifies out
    ensures out.Now() == if |body| < 8 then NO_META else Walk(body, NO_META, 0)
    ensures found <==> out.Now() != NO_META
  {
    out.title, out.artist, out.album, out.durationMs := [], [], [], 0;
    if |body| < 8 {
      return false;
    }
    WalkChildren(body, out, 0);
    return !(out.title == [] && out.artist == [] && out.album == [] && out.durationMs == 0);
  }

  // ---------------------------------------------------------------------
  // Trees
  // ---------------------------------------------------------------------

  /** A list of entries: leaves, and known containers with a list inside; it ends in bytes that are no entry. */
  datatype Forest =
    | Rest(bytes: seq<byte>)
    | Leaf(tag: seq<byte>, data: seq<byte>, more: Forest)
    | Box(tag: seq<byte>, inner: Forest, more: Forest)

  function Entry(tag: seq<byte>, payload: seq<byte>): seq<byte>
    requires |payload| < TWO32
  {
    tag + (Be32(|payload|) + payload)
  }

  predicate WellFormed(f: Forest) {
    match f
    case Rest(bytes) => !HasEntry(bytes)
    case Leaf(tag, data, more) => |tag| == 4 && !Known(tag) && |data| < TWO32 && WellFormed(more)
    case Box(tag, inner, more) => Known(tag) && WellFormed(inner) && |Encode(inner)| < TWO32 && WellFormed(more)
  }

  function Encode(f: Forest): seq<byte> {
    match f
    case Rest(bytes) => bytes
    case Leaf(tag, data, more) => (if |data| < TWO32 then Entry(tag, data) else []) + Encode(more)
    case Box(tag, inner, more) => (if |Encode(inner)| < TWO32 then Entry(tag, Encode(inner)) else []) + Encode(more)
  }

  /** The tree a byte string spells. */
  function Decode(s: seq<byte>): Forest
    decreases |s|
  {
    if !HasEntry(s) then Rest(s)
    else if Known(EntryTag(s)) then Box(EntryTag(s), Decode(Payload(s)), Decode(AfterEntry(s)))
    else Leaf(EntryTag(s), Payload(s), Decode(AfterEntry(s)))
  }

  lemma EntryAtFront(tag: seq<byte>, payload: seq<byte>, more: seq<byte>)
    requires |tag| == 4 && |payload| < TWO32
    ensures var s := Entry(tag, payload) + more;
            HasEntry(s) && EntryTag(s) == tag && Payload(s) == payload && AfterEntry(s) == more
  {
    hide Be32;
    var s, b := Entry(tag, payload) + more, Be32(|payload|);
    assert s == tag + (b + (payload + more));
    Word32OfBe32(|payload|);
    assert s[4] == b[0] && s[5] == b[1] && s[6] == b[2] && s[7] == b[3];
    assert Word32(s, 4) == Word32(b, 0);
  }

  lemma EntryBytes(s: seq<byte>)
    requires HasEntry(s)
    ensures |Payload(s)| < TWO32 && |EntryTag(s)| == 4
    ensures s == Entry(EntryTag(s), Payload(s)) + AfterEntry(s)
  {
    Be32OfWord32(s, 4);
    assert s == s[..4] + (s[4..8] + s[8..8 + Word32(s, 4)]) + s[8 + Word32(s, 4)..];
  }

  /** Every byte string spells exactly one tree, malformed ends included. */
  lemma {:induction false} DecodeEncodes(s: seq<byte>)
    ensures Encode(Decode(s)) == s && WellFormed(Decode(s))
    decreases |s|
  {
    hide HasEntry, EntryTag, Payload, AfterEntry, Entry, Known;
    if HasEntry(s) {
      EntryBytes(s);
      DecodeEncodes(AfterEntry(s));
      if Known(EntryTag(s)) {
        DecodeEncodes(Payload(s));
      }
    }
  }

  lemma {:induction false} EncodeDecodes(f: Forest)
    requires WellFormed(f)
    ensures Decode(Encode(f)) == f
  {
    hide HasEntry, EntryTag, Payload, AfterEntry, Entry;
    match f
    case Rest(bytes) =>
    case Leaf(tag, data, more) =>
      EntryAtFront(tag, data, Encode(more));
      EncodeDecodes(more);
    case Box(tag, inner, more) =>
      KnownIsTag(tag);
      EntryAtFront(tag, Encode(inner), Encode(more));
      EncodeDecodes(inner);
      EncodeDecodes(more);
  }

  lemma KnownIsTag(tag: seq<byte>)
    requires Known(tag)
    ensures |tag| == 4
  {}

  datatype TaggedData = TaggedData(tag: seq<byte>, data: seq<byte>)

  /** The leaves in document order that lie under at most four known containers. */
  function Leaves(f: Forest, depth: nat): seq<TaggedData> {
    match f
    case Rest(_) => []
    case Leaf(tag, data, more) => (if depth > MAX_DEPTH then [] else [TaggedData(tag, data)]) + Leaves(more, depth)
    case Box(_, inner, more) => Leaves(inner, depth + 1) + Leaves(more, depth)
  }

  /** The data of the last leaf of one tag; `only4` passes over leaves that are not four bytes long. */
  function LastOf(leaves: seq<TaggedData>, tag: seq<byte>, only4: bool, default: seq<byte>): seq<byte>
    decreases |leaves|
  {
    if leaves == [] then default
    else
      var l := leaves[|leaves| - 1];
      if l.tag == tag && (only4 ==> |l.data| == 4) then l.data
      else LastOf(leaves[..|leaves| - 1], tag, only4, default)
  }

  function Collect(m: Meta, leaves: seq<TaggedData>): Meta
    decreases |leaves|
  {
    if leaves == [] then m else Collect(WithLeaf(m, leaves[0].tag, leaves[0].data), leaves[1..])
  }

  lemma {:induction false} CollectConcat(m: Meta, a: seq<TaggedData>, b: seq<TaggedData>)
    ensures Collect(m, a + b) == Collect(Collect(m, a), b)
    decreases |a|
  {
    hide WithLeaf;
    if a == [] {
      assert a + b == b;
    } else {
      assert (a + b)[1..] == a[1..] + b;
      CollectConcat(WithLeaf(m, a[0].tag, a[0].data), a[1..], b);
    }
  }

  lemma CollectLast(m: Meta, a: seq<TaggedData>, l: TaggedData)
    ensures Collect(m, a + [l]) == WithLeaf(Collect(m, a), l.tag, l.data)
  {
    hide WithLeaf;
    CollectConcat(m, a, [l]);
    assert [l][1..] == [];
  }

  /** Nothing below the depth limit is visited. */
  lemma {:induction false} TooDeep(f: Forest, depth: nat)
    requires depth > MAX_DEPTH
    ensures Leaves(f, depth) == []
  {
    match f
    case Rest(_) =>
    case Leaf(_, _, more) => TooDeep(more, depth);
    case Box(_, inner, more) =>
      TooDeep(inner, depth + 1);
      TooDeep(more, depth);
  }

  /** The walk collects the leaves of the tree. */
  lemma {:induction false} WalkCollects(s: seq<byte>, m: Meta, depth: nat)
    ensures Walk(s, m, depth) == Collect(m, Leaves(Decode(s), depth))
    decreases |s|
  {
    hide HasEntry, EntryTag, Payload, AfterEntry, Known, WithLeaf;
    if depth > MAX_DEPTH {
      TooDeep(Decode(s), depth);
    } else if HasEntry(s) {
      var tag, data, more := EntryTag(s), Payload(s), Leaves(Decode(AfterEntry(s)), depth);
      if Known(tag) {
        var inner := Leaves(Decode(data), depth + 1);
        WalkCollects(data, m, depth + 1);
        WalkCollects(AfterEntry(s), Collect(m, inner), depth);
        CollectConcat(m, inner, more);
      } else {
        WalkCollects(AfterEntry(s), WithLeaf(m, tag, data), depth);
        assert ([TaggedData(tag, data)] + more)[1..] == more;
      }
    }
  }

  /** Each field is the last leaf of its tag. */
  predicate FromLast(m: Meta, was: Meta, leaves: seq<TaggedData>) {
    && m.title == LastOf(leaves, MINM, false, was.title)
    && m.artist == LastOf(leaves, ASAR, false, was.artist)
    && m.album == LastOf(leaves, ASAL, false, was.album)
    && Be32(m.duration) == LastOf(leaves, ASTM, true, Be32(was.duration))
  }

  lemma {:induction false} CollectTakesLast(m: Meta, leaves: seq<TaggedData>)
    ensures FromLast(Collect(m, leaves), m, leaves)
    decreases |leaves|
  {
    hide WithLeaf, Be32, Spells;
    if leaves != [] {
      var n := |leaves| - 1;
      CollectTakesLast(m, leaves[..n]);
      assert leaves == leaves[..n] + [leaves[n]];
      CollectLast(m, leaves[..n], leaves[n]);
      TagsSpelled(leaves[n].tag);
      LeafTakesOver(Collect(m, leaves[..n]), leaves[n]);
    }
  }

  lemma LeafTakesOver(m: Meta, l: TaggedData)
    ensures var k := WithLeaf(m, l.tag, l.data);
            && k.title == (if Spells(l.tag, "minm") then l.data else m.title)
            && k.artist == (if Spells(l.tag, "asar") then l.data else m.artist)
            && k.album == (if Spells(l.tag, "asal") then l.data else m.album)
            && Be32(k.duration) == (if Spells(l.tag, "astm") && |l.data| == 4 then l.data else Be32(m.duration))
  {
    hide Be32;
    TagsDiffer(l.tag);
    TagsSpelled(l.tag);
    if l.tag == ASTM && |l.data| == 4 {
      Be32OfWord32(l.data, 0);
      assert l.data[0..0 + 4] == l.data;
    }
  }

  lemma TagsDiffer(tag: seq<byte>)
    ensures tag == MINM ==> tag != ASAR && tag != ASAL && tag != ASTM
    ensures tag == ASAR ==> tag != ASAL && tag != ASTM
    ensures tag == ASAL ==> tag != ASTM
  {
    assert MINM[0] != ASAR[0] && ASAR[2] != ASTM[2] && ASAL[2] != ASTM[2] && ASAR[3] != ASAL[3];
  }

  /**
    Main result: for every byte string, title, artist, album and duration are the last
    leaves of their tags, in document order, among those under at most four known
    containers; a malformed end of the record or of any container changes nothing.
   */
  lemma RecordIsLastLeaves(s: seq<byte>)
    ensures FromLast(Walk(s, NO_META, 0), NO_META, Leaves(Decode(s), 0))
  {
    hide FromLast;
    WalkCollects(s, NO_META, 0);
    CollectTakesLast(NO_META, Leaves(Decode(s), 0));
  }

  /** A record is found exactly when the last leaf of some tag says something. */
  lemma FoundExactly(s: seq<byte>)
    ensures var leaves := Leaves(Decode(s), 0);
            Walk(s, NO_META, 0) != NO_META
            <==> || LastOf(leaves, MINM, false, []) != []
                 || LastOf(leaves, ASAR, false, []) != []
                 || LastOf(leaves, ASAL, false, []) != []
                 || LastOf(leaves, ASTM, true, Be32(0)) != Be32(0)
  {
    hide Walk, Leaves, LastOf, Be32;
    RecordIsLastLeaves(s);
    Word32OfBe32(Walk(s, NO_META, 0).duration);
    Word32OfBe32(0);
  }

  /** The first tag does not decide it: a lone title is a record ... */
  lemma LoneTitleIsFound(title: seq<byte>)
    requires |title| < TWO32
    ensures Walk(Entry(MINM, title), NO_META, 0) == NO_META.(title := title)
  {
    hide Be32, Payload, AfterEntry;
    var s := Entry(MINM, title);
    assert s + [] == s;
    EntryAtFront(MINM, title, []);
    assert MINM[1] != MLIT[1] && MINM[1] != MCON[1] && MINM[1] != MLCL[1];
    TooShort([]);
  }

  /** ... and an empty `mlit` is none. */
  lemma EmptyContainerIsNotFound()
    ensures Walk(Entry(MLIT, []), NO_META, 0) == NO_META
  {
    hide Be32, Payload, AfterEntry;
    var s := Entry(MLIT, []);
    assert s + [] == s;
    EntryAtFront(MLIT, [], []);
    TooShort([]);
    assert Walk([], NO_META, 1) == NO_META;
  }

  /** The same for a tree that was written: the malformed ends do not matter. */
  lemma WrittenTreeIsRead(f: Forest)
    requires WellFormed(f)
    ensures FromLast(Walk(Encode(f), NO_META, 0), NO_META, Leaves(f, 0))
  {
    hide FromLast;
    EncodeDecodes(f);
    RecordIsLastLeaves(Encode(f));
  }

  /** The tree without any malformed end. */
  function Clean(f: Forest): Forest {
    match f
    case Rest(_) => Rest([])
    case Leaf(tag, data, more) => Leaf(tag, data, Clean(more))
    case Box(tag, inner, more) => Box(tag, Clean(inner), Clean(more))
  }

  lemma {:induction false} CleanIsShorter(f: Forest)
    requires WellFormed(f)
    ensures WellFormed(Clean(f)) && |Encode(Clean(f))| <= |Encode(f)|
  {
    hide Known, HasEntry, Be32;
    match f
    case Rest(_) => TooShort([]);
    case Leaf(_, _, more) => CleanIsShorter(more);
    case Box(_, inner, more) =>
      CleanIsShorter(inner);
      CleanIsShorter(more);
  }

  lemma {:induction false} CleanKeepsLeaves(f: Forest, depth: nat)
    ensures Leaves(Clean(f), depth) == Leaves(f, depth)
  {
    match f
    case Rest(_) =>
    case Leaf(_, _, more) => CleanKeepsLeaves(more, depth);
    case Box(_, inner, more) =>
      CleanKeepsLeaves(inner, depth + 1);
      CleanKeepsLeaves(more, depth);
  }

  /** Malformed ends, at any depth, do not disturb what was found. */
  lemma MalformedEndsAreHarmless(f: Forest)
    requires WellFormed(f)
    ensures WellFormed(Clean(f)) && Walk(Encode(f), NO_META, 0) == Walk(Encode(Clean(f)), NO_META, 0)
  {
    hide Leaves, Walk;
    CleanIsShorter(f);
    EncodeDecodes(f);
    EncodeDecodes(Clean(f));
    CleanKeepsLeaves(f, 0);
    WalkCollects(Encode(f), NO_META, 0);
    WalkCollects(Encode(Clean(f)), NO_META, 0);
  }
}
