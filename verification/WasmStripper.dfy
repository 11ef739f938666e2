/** The Companion's build step that drops the debug sections of a WebAssembly
    module: a walk over the module's bytes that copies every section it keeps. */
module WasmStripper {
  import opened Strings
  import opened Leb128

  type Bytes = seq<Byte>

  // ---------------------------------------------------------------- the walk, on values

  /** The first four bytes of a module; the version in the next four is not looked at. */
  predicate HasMagic(m: Bytes) {
    |m| >= 8 && m[0] == 0x00 && m[1] == 0x61 && m[2] == 0x73 && m[3] == 0x6d
  }

  /** `subarray`: a slice whose end is clamped to the array. */
  function Subarray(m: Bytes, from: nat, to: nat): Bytes
    requires from <= |m| && from <= to
  {
    m[from..if to <= |m| then to else |m|]
  }

  /** The byte-order mark a text decoder drops. */
  const BYTE_ORDER_MARK: Bytes := [0xef, 0xbb, 0xbf]

  predicate StartsWithMark(name: Bytes) {
    BYTE_ORDER_MARK <= name
  }

  /** A name as `TextDecoder` reads it, as far as comparing it with ASCII names goes: one
      byte-order mark at the start is dropped, and what then decodes to ASCII was ASCII. */
  function Decoded(name: Bytes): Bytes {
    if StartsWithMark(name) then name[3..] else name
  }

  /** Whether the section with id `id` and body at `body` carries a dropped name. */
  predicate Drops(m: Bytes, id: Byte, body: nat, dropped: set<Bytes>) {
    id == 0 &&
    match Read(m, body)
    case None => false
    case Some((length, at)) => at <= |m| && Decoded(Subarray(m, at, at + length)) in dropped
  }

  /** Where the body and the end of the section starting at `at` are. */
  function Extent(m: Bytes, at: nat): (r: Option<(nat, nat)>)
    ensures r.Some? ==> r.value.1 <= |m|
  {
    match Read(m, at + 1)
    case None => None
    case Some((size, body)) => if body + size > |m| then None else Some((body, body + size))
  }

  lemma ExtentAdvances(m: Bytes, at: nat)
    requires Extent(m, at).Some?
    ensures var (body, end) := Extent(m, at).value; at + 1 < body <= end <= |m|
  {
    ReadsWithinSixBytes(m, at + 1);
  }

  /** The bytes kept from `at` on. */
  function KeptFrom(m: Bytes, at: nat, dropped: set<Bytes>): Option<Bytes>
    decreases |m| - at
  {
    if at >= |m| then Some([])
    else
      match Extent(m, at)
      case None => None
      case Some((body, end)) =>
        ExtentAdvances(m, at);
        match KeptFrom(m, end, dropped)
        case None => None
        case Some(rest) => Some(if Drops(m, m[at], body, dropped) then rest else m[at..end] + rest)
  }

  function Stripped(m: Bytes, dropped: set<Bytes>): Option<Bytes> {
    if !HasMagic(m) then None
    else
      match KeptFrom(m, 8, dropped)
      case None => None
      case Some(rest) => Some(m[..8] + rest)
  }

  // ---------------------------------------------------------------- the walk, in place

  function Flatten(parts: seq<Bytes>): Bytes {
    if parts == [] then [] else Flatten(parts[..|parts| - 1]) + parts[|parts| - 1]
  }

  lemma FlattenPush(parts: seq<Bytes>, part: Bytes)
    ensures Flatten(parts + [part]) == Flatten(parts) + part
  {
    assert (parts + [part])[..|parts|] == parts;
  }

  lemma FlattenOne(part: Bytes)
    ensures Flatten([part]) == part
  {
    assert [part][..0] == [];
    assert [] + part == part;
  }

  function Prepend(head: Bytes, rest: Option<Bytes>): Option<Bytes> {
    match rest
    case None => None
    case Some(r) => Some(head + r)
  }

  /** The walk fails where a section's extent cannot be told. */
  lemma Walks(m: Bytes, at: nat, kept: seq<Bytes>, dropped: set<Bytes>)
    requires at < |m| && Walked(m, at, kept, dropped)
    ensures Extent(m, at).None? ==> Stripped(m, dropped).None?
    ensures match Read(m, at + 1)
      case None => Extent(m, at).None?
      case Some((size, body)) => Extent(m, at) == if body + size > |m| then None else Some((body, body + size))
  {
  }

  /** How far the walk is: `kept` is what it keeps of `m` before `at`. */
  predicate Walked(m: Bytes, at: nat, kept: seq<Bytes>, dropped: set<Bytes>) {
    Stripped(m, dropped) == Prepend(Flatten(kept), KeptFrom(m, at, dropped))
  }

  lemma WalkBegins(m: Bytes, dropped: set<Bytes>)
    requires HasMagic(m)
    ensures Walked(m, 8, [m[..8]], dropped)
  {
    FlattenOne(m[..8]);
  }

  lemma WalkEnds(m: Bytes, kept: seq<Bytes>, dropped: set<Bytes>)
    requires Walked(m, |m|, kept, dropped)
    ensures Stripped(m, dropped) == Some(Flatten(kept))
  {
    assert Flatten(kept) + [] == Flatten(kept);
  }

  /** `null` exactly when the walk fails; otherwise a new array with what it keeps. */
  method StripSections(module_: array<Byte>, dropped: set<Bytes>) returns (out: array?<Byte>)
    ensures out == null <==> Stripped(module_[..], dropped).None?
    ensures out != null ==> fresh(out) && Some(out[..]) == Stripped(module_[..], dropped)
  {
    ghost var m := module_[..];
    if module_.Length < 8 || module_[0] != 0x00 || module_[1] != 0x61 || module_[2] != 0x73 || module_[3] != 0x6d {
      return null;
    }
    var kept: seq<Bytes> := [module_[..8]];
    var at := 8;
    WalkBegins(m, dropped);
    while at < module_.Length
      invariant 8 <= at <= module_.Length && module_[..] == m
      invariant Walked(m, at, kept, dropped)
    {
      var start, id := at, module_[at];
      var size := ReadLeb128(module_, at + 1);
      Walks(m, at, kept, dropped);
      if size.None? {
        return null;
      }
      var body := size.value.1;
      at := body + size.value.0;
      if at > module_.Length {
        return null;
      }
      var named := CarriesDroppedName(module_, id, body, dropped);
      Turn(m, start, body, at, kept, named, dropped);
      if named {
        continue;
      }
      kept := kept + [module_[start..at]];
    }
    WalkEnds(m, kept, dropped);
    out := Concatenate(kept);
  }

  method CarriesDroppedName(module_: array<Byte>, id: Byte, body: nat, dropped: set<Bytes>) returns (named: bool)
    ensures named == Drops(module_[..], id, body, dropped)
  {
    named := false;
    if id == 0 {
      var nameLength := ReadLeb128(module_, body);
      if nameLength.Some? {
        ReadsWithinSixBytes(module_[..], body);
        var from, to := nameLength.value.1, nameLength.value.1 + nameLength.value.0;
        var end := if to <= module_.Length then to else module_.Length;
        assert module_[from..end] == Subarray(module_[..], from, to);
        named := Decoded(module_[from..end]) in dropped;
      }
    }
  }

  /** One turn of the walk. */
  lemma KeptStep(m: Bytes, at: nat, body: nat, end: nat, drop: bool, dropped: set<Bytes>)
    requires at < |m| && Extent(m, at) == Some((body, end))
    requires drop == Drops(m, m[at], body, dropped)
    ensures at < end <= |m|
    ensures KeptFrom(m, at, dropped)
         == if drop then KeptFrom(m, end, dropped) else Prepend(m[at..end], KeptFrom(m, end, dropped))
  {
    ExtentAdvances(m, at);
  }

  /** What one turn of the loop keeps true. */
  lemma Turn(m: Bytes, start: nat, body: nat, end: nat, kept: seq<Bytes>, named: bool, dropped: set<Bytes>)
    requires start < |m| && Extent(m, start) == Some((body, end))
    requires named == Drops(m, m[start], body, dropped)
    ensures start < end <= |m|
    ensures Prepend(Flatten(kept), KeptFrom(m, start, dropped))
         == Prepend(Flatten(if named then kept else kept + [m[start..end]]), KeptFrom(m, end, dropped))
  {
    KeptStep(m, start, body, end, named, dropped);
    Pushed(kept, m[start..end], KeptFrom(m, end, dropped));
  }

  lemma Pushed(kept: seq<Bytes>, part: Bytes, tail: Option<Bytes>)
    ensures Prepend(Flatten(kept), Prepend(part, tail)) == Prepend(Flatten(kept + [part]), tail)
  {
    FlattenPush(kept, part);
    Reassociate(Flatten(kept), part, tail);
  }

  lemma Reassociate(a: Bytes, b: Bytes, rest: Option<Bytes>)
    ensures Prepend(a + b, rest) == Prepend(a, Prepend(b, rest))
  {
    if rest.Some? {
      assert a + b + rest.value == a + (b + rest.value);
    }
  }

  /** The output buffer: as long as the parts together, filled part by part. */
  method Concatenate(parts: seq<Bytes>) returns (out: array<Byte>)
    ensures fresh(out) && out[..] == Flatten(parts)
  {
    var total := 0;
    for i := 0 to |parts|
      invariant total == |Flatten(parts[..i])|
    {
      assert parts[..i + 1][..i] == parts[..i];
      total := total + |parts[i]|;
    }
    assert parts[..|parts|] == parts;
    out := new Byte[total];
    var offset := 0;
    for i := 0 to |parts|
      invariant offset == |Flatten(parts[..i])| <= total == out.Length
      invariant out[..offset] == Flatten(parts[..i])
    {
      assert parts[..i + 1][..i] == parts[..i];
      FlattenPrefix(parts, i + 1);
      var part := parts[i];
      forall j | 0 <= j < |part| {
        out[offset + j] := part[j];
      }
      assert out[..offset + |part|] == Flatten(parts[..i]) + part;
      offset := offset + |part|;
    }
    assert out[..] == out[..offset];
  }

  lemma {:induction false} FlattenPrefix(parts: seq<Bytes>, k: nat)
    requires k <= |parts|
    ensures |Flatten(parts[..k])| <= |Flatten(parts)|
    decreases |parts|
  {
    if k == |parts| {
      assert parts[..k] == parts;
    } else {
      var init := parts[..|parts| - 1];
      assert init[..k] == parts[..k];
      FlattenPrefix(init, k);
    }
  }

  // ---------------------------------------------------------------- what a module is

  /** A section as its bytes are laid out: an id, an encoded size, a body of that size. */
  datatype Raw = Raw(id: Byte, size: Bytes, body: Bytes) {
    function Encoded(): Bytes {
      [id] + size + body
    }

    /** The size bytes read back, whatever follows them, as the body's length. */
    predicate Sized() {
      Read(size, 0) == Some((|body|, |size|))
    }
  }

  function Emit(sections: seq<Raw>): Bytes {
    if sections == [] then [] else sections[0].Encoded() + Emit(sections[1..])
  }

  /** The sections from `at` to the end: an independent reading of the bytes, which
      drops nothing. */
  function SectionsFrom(m: Bytes, at: nat): Option<seq<Raw>>
    decreases |m| - at
  {
    if at >= |m| then Some([])
    else
      match Extent(m, at)
      case None => None
      case Some((body, end)) =>
        ExtentAdvances(m, at);
        match SectionsFrom(m, end)
        case None => None
        case Some(rest) => Some([Raw(m[at], m[at + 1..body], m[body..end])] + rest)
  }

  function Sections(m: Bytes): Option<seq<Raw>> {
    if HasMagic(m) then SectionsFrom(m, 8) else None
  }

  /** A section laid out at `at` is found there. */
  lemma TakeApart(m: Bytes, at: nat, e: Bytes, rest: Bytes)
    requires at <= |m| && m[at..] == e + rest
    ensures |m| == at + |e| + |rest| && m[at..at + |e|] == e && m[at + |e|..] == rest
    ensures forall i :: 0 <= i < |e| ==> m[at + i] == e[i]
  {
    assert forall i :: 0 <= i < |e + rest| ==> m[at + i] == (e + rest)[i];
  }

  lemma PartsOf(m: Bytes, at: nat, s: Raw)
    requires at + |s.Encoded()| <= |m| && m[at..at + |s.Encoded()|] == s.Encoded()
    ensures var k := |s.size|;
      && |s.Encoded()| == 1 + k + |s.body| && m[at] == s.id
      && m[at + 1..at + 1 + k] == s.size && m[at + 1 + k..at + |s.Encoded()|] == s.body
  {
    var e, k := s.Encoded(), |s.size|;
    assert forall i :: 0 <= i < |e| ==> m[at + i] == e[i];
    assert forall i :: 0 <= i < k ==> e[1 + i] == s.size[i];
    assert forall i :: 0 <= i < |s.body| ==> e[1 + k + i] == s.body[i];
  }

  lemma ExtentOf(m: Bytes, at: nat, s: Raw, rest: Bytes)
    requires s.Sized() && at <= |m| && m[at..] == s.Encoded() + rest
    ensures Extent(m, at) == Some((at + 1 + |s.size|, at + |s.Encoded()|))
    ensures m[at] == s.id
    ensures m[at + 1..at + 1 + |s.size|] == s.size
    ensures m[at + 1 + |s.size|..at + |s.Encoded()|] == s.body
    ensures m[at..at + |s.Encoded()|] == s.Encoded()
    ensures m[at + |s.Encoded()|..] == rest
  {
    var e, k := s.Encoded(), |s.size|;
    TakeApart(m, at, e, rest);
    PartsOf(m, at, s);
    assert m[at + 1..at + 1 + k] == s.size[0..0 + k];
    ReadIsLocal(s.size, 0, m, at + 1);
  }

  /** One section read, and the rest. */
  lemma SectionThen(m: Bytes, at: nat, s: Raw, rest: seq<Raw>)
    requires at < |m| && Extent(m, at) == Some((at + 1 + |s.size|, at + |s.Encoded()|))
    requires at + |s.Encoded()| <= |m| && m[at] == s.id
    requires m[at + 1..at + 1 + |s.size|] == s.size && m[at + 1 + |s.size|..at + |s.Encoded()|] == s.body
    requires SectionsFrom(m, at + |s.Encoded()|) == Some(rest)
    ensures SectionsFrom(m, at) == Some([s] + rest)
  {
  }

  lemma OneSection(m: Bytes, at: nat, s: Raw, rest: seq<Raw>) returns (end: nat)
    requires at <= |m| && m[at..] == Emit([s] + rest) && s.Sized()
    ensures at < |m| && end == at + |s.Encoded()| <= |m| && Extent(m, at) == Some((at + 1 + |s.size|, end)) && m[at] == s.id
    ensures m[at + 1..at + 1 + |s.size|] == s.size && m[at + 1 + |s.size|..end] == s.body
    ensures m[end..] == Emit(rest)
  {
    assert ([s] + rest)[1..] == rest;
    ExtentOf(m, at, s, Emit(rest));
    end := at + |s.Encoded()|;
  }

  /** Reading inverts laying out. */
  lemma {:induction false} SectionsOfEmitted(m: Bytes, at: nat, sections: seq<Raw>)
    requires at <= |m| && m[at..] == Emit(sections)
    requires forall i :: 0 <= i < |sections| ==> sections[i].Sized()
    ensures SectionsFrom(m, at) == Some(sections)
    decreases |sections|
  {
    if sections == [] {
    } else {
      var s, rest := sections[0], sections[1..];
      assert sections == [s] + rest;
      var end := OneSection(m, at, s, rest);
      SectionsOfEmitted(m, end, rest);
      SectionThen(m, at, s, rest);
    }
  }

  // ---------------------------------------------------------------- custom sections

  /** A section as section 5.5.2 of the WebAssembly Core Specification writes it, with
      the name of a custom one inside its body as in section 5.5.3. */
  datatype Section =
    | Standard(id: Byte, size: Bytes, contents: Bytes)
    | Custom(size: Bytes, nameSize: Bytes, name: Bytes, payload: Bytes)
  {
    function Body(): Bytes {
      if Standard? then contents else nameSize + name + payload
    }

    predicate WellFormed() {
      && Decode(32, size) == Some(|Body()|)
      && (Standard? ==> id != 0)
      && (Custom? ==> Decode(32, nameSize) == Some(|name|))
    }

    function AsRaw(): Raw {
      Raw(if Standard? then id else 0, size, Body())
    }

    predicate Dropped(dropped: set<Bytes>) {
      Custom? && Decoded(name) in dropped
    }
  }

  function Raws(sections: seq<Section>): seq<Raw> {
    if sections == [] then [] else [sections[0].AsRaw()] + Raws(sections[1..])
  }

  function Keep(sections: seq<Section>, dropped: set<Bytes>): seq<Section> {
    if sections == [] then []
    else if sections[0].Dropped(dropped) then Keep(sections[1..], dropped)
    else [sections[0]] + Keep(sections[1..], dropped)
  }

  predicate AllWellFormed(sections: seq<Section>) {
    forall i :: 0 <= i < |sections| ==> sections[i].WellFormed()
  }

  predicate IsHeader(header: Bytes) {
    |header| == 8 && HasMagic(header)
  }

  function Module(header: Bytes, sections: seq<Section>): Bytes {
    header + Emit(Raws(sections))
  }

  lemma WellFormedIsSized(s: Section)
    requires s.WellFormed()
    ensures s.AsRaw().Sized()
  {
    assert s.size[0..|s.size|] == s.size;
    InvertsTheStandard(s.size, 0, s.size, |s.Body()|);
  }

  /** A name laid out at `body` is found there. */
  lemma NameOf(m: Bytes, body: nat, nameSize: Bytes, name: Bytes, payload: Bytes)
    requires Decode(32, nameSize) == Some(|name|)
    requires var b := nameSize + name + payload; body + |b| <= |m| && m[body..body + |b|] == b
    ensures Read(m, body) == Some((|name|, body + |nameSize|))
    ensures body + |nameSize| + |name| <= |m|
    ensures m[body + |nameSize|..body + |nameSize| + |name|] == name
  {
    var b := nameSize + name + payload;
    assert forall i :: 0 <= i < |b| ==> m[body + i] == b[i];
    assert forall i :: 0 <= i < |nameSize| ==> b[i] == nameSize[i];
    assert forall i :: 0 <= i < |name| ==> b[|nameSize| + i] == name[i];
    assert m[body..body + |nameSize|] == nameSize;
    InvertsTheStandard(m, body, nameSize, |name|);
  }

  /** Inside a well-formed section the walk sees the section's own name. */
  lemma DropsByName(m: Bytes, body: nat, s: Section, dropped: set<Bytes>)
    requires s.WellFormed()
    requires body + |s.Body()| <= |m| && m[body..body + |s.Body()|] == s.Body()
    ensures Drops(m, s.AsRaw().id, body, dropped) == s.Dropped(dropped)
  {
    if s.Custom? {
      NameOf(m, body, s.nameSize, s.name, s.payload);
    }
  }

  lemma EmitKeep(s: Section, sections: seq<Section>, dropped: set<Bytes>)
    requires sections != [] && s == sections[0]
    ensures Emit(Raws(sections)) == s.AsRaw().Encoded() + Emit(Raws(sections[1..]))
    ensures !s.Dropped(dropped) ==>
      Emit(Raws(Keep(sections, dropped))) == s.AsRaw().Encoded() + Emit(Raws(Keep(sections[1..], dropped)))
  {
    assert Raws(sections)[1..] == Raws(sections[1..]);
    if !s.Dropped(dropped) {
      assert Keep(sections, dropped)[1..] == Keep(sections[1..], dropped);
      assert Raws(Keep(sections, dropped))[1..] == Raws(Keep(sections[1..], dropped));
    }
  }

  lemma {:induction false} KeptOfModule(m: Bytes, at: nat, sections: seq<Section>, dropped: set<Bytes>)
    requires AllWellFormed(sections)
    requires at <= |m| && m[at..] == Emit(Raws(sections))
    ensures KeptFrom(m, at, dropped) == Some(Emit(Raws(Keep(sections, dropped))))
    decreases |sections|
  {
    if sections == [] {
    } else {
      var s, rest := sections[0], sections[1..];
      var r := s.AsRaw();
      var body, end := at + 1 + |r.size|, at + |r.Encoded()|;
      EmitKeep(s, sections, dropped);
      WellFormedIsSized(s);
      ExtentOf(m, at, r, Emit(Raws(rest)));
      DropsByName(m, body, s, dropped);
      KeptOfModule(m, end, rest, dropped);
      KeptStep(m, at, body, end, s.Dropped(dropped), dropped);
    }
  }

  /** A well-formed module strips to the same header and exactly the sections whose
      name is not dropped, in order, byte for byte. */
  lemma StripsByName(header: Bytes, sections: seq<Section>, dropped: set<Bytes>)
    requires IsHeader(header) && AllWellFormed(sections)
    ensures Stripped(Module(header, sections), dropped) == Some(Module(header, Keep(sections, dropped)))
  {
    var m := Module(header, sections);
    assert m[..8] == header && m[8..] == Emit(Raws(sections));
    KeptOfModule(m, 8, sections, dropped);
  }

  function KeepByName(sections: seq<Section>, dropped: set<Bytes>): seq<Section> {
    if sections == [] then []
    else if sections[0].Custom? && sections[0].name in dropped then KeepByName(sections[1..], dropped)
    else [sections[0]] + KeepByName(sections[1..], dropped)
  }

  /** A section named like a dropped one, but for a byte-order mark before it. */
  predicate DroppedForItsMark(s: Section, dropped: set<Bytes>) {
    s.Custom? && StartsWithMark(s.name) && s.name[3..] in dropped
  }

  lemma {:induction false} NoMoreIsKept(sections: seq<Section>, dropped: set<Bytes>)
    requires forall n :: n in dropped ==> !StartsWithMark(n)
    ensures |Keep(sections, dropped)| <= |KeepByName(sections, dropped)|
  {
    if sections == [] {
    } else {
      NoMoreIsKept(sections[1..], dropped);
    }
  }

  /** By their own names, what goes is exactly the dropped-name sections if and only if none
      is named by a byte-order mark and then a dropped name. */
  lemma {:induction false} DropsByOwnName(sections: seq<Section>, dropped: set<Bytes>)
    requires forall n :: n in dropped ==> !StartsWithMark(n)
    ensures Keep(sections, dropped) == KeepByName(sections, dropped)
       <==> forall i :: 0 <= i < |sections| ==> !DroppedForItsMark(sections[i], dropped)
  {
    if sections == [] {
    } else {
      var s, rest := sections[0], sections[1..];
      DropsByOwnName(rest, dropped);
      NoMoreIsKept(rest, dropped);
      assert forall i :: 0 < i < |sections| ==> sections[i] == rest[i - 1];
      if DroppedForItsMark(s, dropped) {
        assert |Keep(sections, dropped)| < |KeepByName(sections, dropped)|;
      } else if s.Dropped(dropped) {
        assert Keep(sections, dropped) == Keep(rest, dropped) && KeepByName(sections, dropped) == KeepByName(rest, dropped);
      } else {
        assert Keep(sections, dropped)[1..] == Keep(rest, dropped) && KeepByName(sections, dropped)[1..] == KeepByName(rest, dropped);
      }
    }
  }

  /** The name `name`, one of those dropped. */
  const NAME: Bytes := [0x6e, 0x61, 0x6d, 0x65]

  /** And there is such a section: named by a mark and then `name`, it goes too. */
  lemma MarkedNameGoes(header: Bytes)
    requires IsHeader(header)
    ensures var marked := Custom([8], [7], BYTE_ORDER_MARK + NAME, []);
      && marked.WellFormed() && marked.name !in {NAME}
      && Stripped(Module(header, [marked]), {NAME}) == Some(header)
  {
    var marked := Custom([8], [7], BYTE_ORDER_MARK + NAME, []);
    assert Decoded(marked.name) == NAME;
    assert Emit(Raws([])) == [];
    StripsByName(header, [marked], {NAME});
    assert Keep([marked], {NAME}) == [];
    assert Module(header, []) == header;
  }

  /** The version is not looked at: any four bytes in its place pass. */
  lemma AnyVersionPasses(version: Bytes, sections: seq<Section>, dropped: set<Bytes>)
    requires |version| == 4 && AllWellFormed(sections)
    ensures Stripped(Module([0x00, 0x61, 0x73, 0x6d] + version, sections), dropped)
         == Some(Module([0x00, 0x61, 0x73, 0x6d] + version, Keep(sections, dropped)))
  {
    StripsByName([0x00, 0x61, 0x73, 0x6d] + version, sections, dropped);
  }

  lemma {:induction false} RawsFacts(sections: seq<Section>)
    requires AllWellFormed(sections)
    ensures forall i :: 0 <= i < |Raws(sections)| ==> Raws(sections)[i].Sized()
  {
    if sections == [] {
    } else {
      WellFormedIsSized(sections[0]);
      RawsFacts(sections[1..]);
    }
  }

  lemma {:induction false} KeepFacts(sections: seq<Section>, dropped: set<Bytes>)
    ensures AllWellFormed(sections) ==> AllWellFormed(Keep(sections, dropped))
    ensures forall s :: s in Keep(sections, dropped) <==> s in sections && !s.Dropped(dropped)
    ensures Keep(Keep(sections, dropped), dropped) == Keep(sections, dropped)
  {
    if sections == [] {
    } else {
      KeepFacts(sections[1..], dropped);
      if !sections[0].Dropped(dropped) {
        assert Keep(sections, dropped)[1..] == Keep(sections[1..], dropped);
      }
    }
  }

  /** Read back, the output holds the input's sections minus the dropped ones, and
      stripping it again changes nothing. */
  lemma OutputParsesAndIsFinal(header: Bytes, sections: seq<Section>, dropped: set<Bytes>)
    requires IsHeader(header) && AllWellFormed(sections)
    ensures Stripped(Module(header, sections), dropped).Some?
    ensures var out := Stripped(Module(header, sections), dropped).value;
      && Sections(Module(header, sections)) == Some(Raws(sections))
      && Sections(out) == Some(Raws(Keep(sections, dropped)))
      && Stripped(out, dropped) == Some(out)
  {
    var kept := Keep(sections, dropped);
    KeepFacts(sections, dropped);
    StripsByName(header, sections, dropped);
    StripsByName(header, kept, dropped);
    forall list | list == sections || list == kept
      ensures Sections(Module(header, list)) == Some(Raws(list))
    {
      RawsFacts(list);
      assert Module(header, list)[8..] == Emit(Raws(list));
      SectionsOfEmitted(Module(header, list), 8, Raws(list));
    }
  }

  // ---------------------------------------------------------------- every byte array

  function NonCustom(sections: seq<Raw>): seq<Raw> {
    if sections == [] then []
    else if sections[0].id == 0 then NonCustom(sections[1..])
    else [sections[0]] + NonCustom(sections[1..])
  }

  predicate AllSized(sections: seq<Raw>) {
    forall i :: 0 <= i < |sections| ==> sections[i].Sized()
  }

  lemma RawAt(m: Bytes, at: nat, body: nat, end: nat)
    requires at < |m| && Extent(m, at) == Some((body, end))
    ensures at + 1 < body <= end <= |m|
    ensures Raw(m[at], m[at + 1..body], m[body..end]).Sized()
    ensures Raw(m[at], m[at + 1..body], m[body..end]).Encoded() == m[at..end]
  {
    ExtentAdvances(m, at);
    var size := m[at + 1..body];
    assert m[at + 1..body] == size[0..|size|];
    ReadIsLocal(m, at + 1, size, 0);
  }

  lemma {:induction false} KeptIsSections(m: Bytes, at: nat, dropped: set<Bytes>) returns (kept: seq<Raw>)
    requires SectionsFrom(m, at).Some?
    ensures KeptFrom(m, at, dropped) == Some(Emit(kept)) && AllSized(kept)
    ensures NonCustom(kept) == NonCustom(SectionsFrom(m, at).value)
    decreases |m| - at
  {
    kept := [];
    if at < |m| {
      var (body, end) := Extent(m, at).value;
      RawAt(m, at, body, end);
      var rest := KeptIsSections(m, end, dropped);
      var s, drop := Raw(m[at], m[at + 1..body], m[body..end]), Drops(m, m[at], body, dropped);
      kept := if drop then rest else [s] + rest;
      KeptStep(m, at, body, end, drop, dropped);
      NonCustomStep(s, rest);
      NonCustomStep(s, SectionsFrom(m, end).value);
    }
  }

  lemma NonCustomStep(s: Raw, rest: seq<Raw>)
    ensures NonCustom([s] + rest) == (if s.id == 0 then [] else [s]) + NonCustom(rest)
    ensures Emit([s] + rest) == s.Encoded() + Emit(rest)
  {
    assert ([s] + rest)[1..] == rest;
  }

  lemma {:induction false} FailTogether(m: Bytes, at: nat, dropped: set<Bytes>)
    ensures KeptFrom(m, at, dropped).None? <==> SectionsFrom(m, at).None?
    decreases |m| - at
  {
    if at < |m| && Extent(m, at).Some? {
      ExtentAdvances(m, at);
      FailTogether(m, Extent(m, at).value.1, dropped);
    }
  }

  lemma MagicFirst(m: Bytes, dropped: set<Bytes>)
    ensures Stripped(m, dropped).Some? ==> |m| >= 8 && m[..4] == [0x00, 0x61, 0x73, 0x6d]
  {
  }

  /** Over every byte array, adversarial names included: the walk fails exactly when
      the bytes are not a header and sections, and whatever it drops, the output is a
      module again with the same non-custom sections. */
  lemma NothingButCustomSectionsGoes(m: Bytes, dropped: set<Bytes>)
    ensures Stripped(m, dropped).Some? <==> Sections(m).Some?
    ensures Stripped(m, dropped).Some? ==> |m| >= 8 && m[..4] == [0x00, 0x61, 0x73, 0x6d]
    ensures Stripped(m, dropped).Some? ==>
      var out := Stripped(m, dropped).value;
      && Sections(out).Some?
      && NonCustom(Sections(out).value) == NonCustom(Sections(m).value)
      && m[..8] <= out
  {
    MagicFirst(m, dropped);
    if HasMagic(m) {
      FailTogether(m, 8, dropped);
      if Sections(m).Some? {
        var kept := KeptIsSections(m, 8, dropped);
        var out := m[..8] + Emit(kept);
        assert out[8..] == Emit(kept) && HasMagic(out);
        SectionsOfEmitted(out, 8, kept);
      }
    }
  }
}
