/** The compiled file-context format: the writer of sefcontext_compile and the loader of libselinux. */
module FcontextFile {
  import opened Bits
  import opened Wrappers

  type Bytes = seq<u8>

  /** A specification as both programs hold it; `blob` and `study` are the opaque PCRE data. */
  datatype Spec = Spec(context: Bytes, regex: Bytes, mode: u32, stemId: int, hasMeta: u8, prefixLen: u32, blob: Bytes, study: Bytes)

  datatype Data = Data(stems: seq<Bytes>, specs: seq<Spec>)

  /** The PCRE library: its version, and the sizes it reads out of its own data. */
  datatype Pcre = Pcre(version: Bytes, size: Bytes -> int, studySize: (Bytes, Bytes) -> int)

  const MAGIC: u32 := 0xf97cff8a
  const PCRE_VERS: u32 := 2
  const PREFIX_VERS: u32 := 4
  const MAX_VERS: u32 := 4

  const NUL: u8 := 0

  // ---- integers and strings -------------------------------------------

  /** A uint32_t in memory, least significant byte first. */
  function U32(n: u32): (b: Bytes)
    ensures |b| == 4
  {
    [n % 256, n / 256 % 256, n / 256 / 256 % 256, n / 256 / 256 / 256]
  }

  function FromU32(b: Bytes): u32
    requires |b| == 4
  {
    var b0: int, b1: int, b2: int, b3: int := b[0], b[1], b[2], b[3];
    b0 + 256 * (b1 + 256 * (b2 + 256 * b3))
  }

  lemma U32RoundTrip(n: u32)
    ensures FromU32(U32(n)) == n
  {
  }

  /** An int32_t has the same bytes as the uint32_t congruent to it. */
  function Signed(n: u32): int {
    if n < 0x8000_0000 then n else n - 0x1_0000_0000
  }

  predicate IsText(s: Bytes) {
    NUL !in s
  }

  /** What a C program sees of an array: the bytes before the first NUL. */
  function CString(s: Bytes): (r: Bytes)
    ensures IsText(r)
  {
    if s == [] || s[0] == NUL then [] else [s[0]] + CString(s[1..])
  }

  lemma {:induction false} CStringOfText(s: Bytes, rest: Bytes)
    requires IsText(s)
    ensures CString(s) == s && CString(s + [NUL] + rest) == s
  {
    if s == [] {
      assert s + [NUL] + rest == [NUL] + rest;
    } else {
      CStringOfText(s[1..], rest);
      assert (s + [NUL] + rest)[1..] == s[1..] + [NUL] + rest;
    }
  }

  /** A C string is what stands before the first NUL, or all of it. */
  lemma {:induction false} CStringIsPrefix(s: Bytes)
    ensures CString(s) <= s && (CString(s) != s ==> s[|CString(s)|] == 0)
  {
    if s != [] && s[0] != NUL {
      CStringIsPrefix(s[1..]);
      assert s == [s[0]] + s[1..];
    }
  }

  // ---- writing --------------------------------------------------------

  function StemBytes(s: Bytes): Bytes {
    U32(Wrap32(|s|)) + s + [NUL]
  }

  function TextBytes(s: Bytes): Bytes {
    U32(Wrap32(|s| + 1)) + s + [NUL]
  }

  function BlobBytes(s: Bytes): Bytes {
    U32(Wrap32(|s|)) + s
  }

  function SpecBytes(s: Spec): Bytes {
    TextBytes(s.context) + TextBytes(s.regex) + U32(s.mode) + U32(Wrap32(s.stemId)) + U32(s.hasMeta) + U32(s.prefixLen)
    + BlobBytes(s.blob) + BlobBytes(s.study)
  }

  function StemsBytes(stems: seq<Bytes>): Bytes {
    if stems == [] then [] else StemBytes(stems[0]) + StemsBytes(stems[1..])
  }

  function SpecsBytes(specs: seq<Spec>): Bytes {
    if specs == [] then [] else SpecBytes(specs[0]) + SpecsBytes(specs[1..])
  }

  function FileBytes(d: Data, pcre: Pcre): Bytes {
    U32(MAGIC) + U32(MAX_VERS) + BlobBytes(pcre.version)
    + U32(Wrap32(|d.stems|)) + StemsBytes(d.stems) + U32(Wrap32(|d.specs|)) + SpecsBytes(d.specs)
  }

  lemma {:induction false} StemsBytesAppend(stems: seq<Bytes>, s: Bytes)
    ensures StemsBytes(stems + [s]) == StemsBytes(stems) + StemBytes(s)
  {
    hide StemBytes;
    if stems == [] {
      assert [s][1..] == [];
    } else {
      StemsBytesAppend(stems[1..], s);
      assert (stems + [s])[1..] == stems[1..] + [s];
    }
  }

  lemma {:induction false} SpecsBytesAppend(specs: seq<Spec>, s: Spec)
    ensures SpecsBytes(specs + [s]) == SpecsBytes(specs) + SpecBytes(s)
  {
    hide SpecBytes;
    if specs == [] {
      assert [s][1..] == [];
    } else {
      SpecsBytesAppend(specs[1..], s);
      assert (specs + [s])[1..] == specs[1..] + [s];
    }
  }

  lemma StemsStart(d: Data)
    ensures StemsBytes(d.stems[..0]) == [] && SpecsBytes(d.specs[..0]) == []
  {
  }

  /** write_binary_file: field by field, stems first. */
  method WriteBinaryFile(d: Data, pcre: Pcre) returns (out: Bytes)
    ensures out == FileBytes(d, pcre)
  {
    hide SpecBytes, StemBytes, U32, SpecsBytes, StemsBytes;
    StemsStart(d);
    out := U32(MAGIC) + U32(MAX_VERS);
    out := out + BlobBytes(pcre.version);
    out := out + U32(Wrap32(|d.stems|));
    ghost var header := out;
    for i := 0 to |d.stems|
      invariant out == header + StemsBytes(d.stems[..i])
    {
      assert d.stems[..i + 1] == d.stems[..i] + [d.stems[i]];
      StemsBytesAppend(d.stems[..i], d.stems[i]);
      out := out + StemBytes(d.stems[i]);
    }
    assert d.stems[..|d.stems|] == d.stems;
    out := out + U32(Wrap32(|d.specs|));
    ghost var upToSpecs := out;
    for i := 0 to |d.specs|
      invariant out == upToSpecs + SpecsBytes(d.specs[..i])
    {
      assert d.specs[..i + 1] == d.specs[..i] + [d.specs[i]];
      SpecsBytesAppend(d.specs[..i], d.specs[i]);
      out := out + SpecBytes(d.specs[i]);
    }
    assert d.specs[..|d.specs|] == d.specs;
  }

  // ---- reading, as functions of what is left of the area --------------

  datatype Read<+T> = Read(value: T, rest: Bytes)

  /** next_entry: the next `n` bytes, unless they would pass the end. */
  function Take(r: Bytes, n: nat): Option<Read<Bytes>> {
    if n > |r| then None else Some(Read(r[..n], r[n..]))
  }

  function TakeU32(r: Bytes): Option<Read<u32>> {
    match Take(r, 4)
    case None => None
    case Some(x) => Some(Read(FromU32(x.value), x.rest))
  }

  /** A length that must not be zero, and that many bytes. */
  function TakeBlob(r: Bytes): Option<Read<Bytes>> {
    match TakeU32(r)
    case None => None
    case Some(n) => if n.value == 0 then None else Take(n.rest, n.value)
  }

  /** A counted string whose last byte must be NUL. */
  function TakeText(r: Bytes): Option<Read<Bytes>> {
    match TakeBlob(r)
    case None => None
    case Some(x) =>
      if x.value != [] && x.value[|x.value| - 1] == NUL then Some(Read(CString(x.value), x.rest)) else None
  }

  /** A stem: the length leaves out the NUL that follows, and must leave room to add it. */
  function TakeStem(r: Bytes): Option<Read<Bytes>> {
    match TakeU32(r)
    case None => None
    case Some(n) =>
      if n.value == 0 || n.value == 0xffff_ffff then None else
        match Take(n.rest, n.value + 1)
        case None => None
        case Some(x) => if x.value[n.value] == NUL then Some(Read(x.value[..n.value], x.rest)) else None
  }

  /** Equal lengths and strncmp. */
  predicate SameStem(a: Bytes, b: Bytes) {
    |a| == |b| && CString(a) == CString(b)
  }

  /** find_stem. */
  function FindStem(stems: seq<Bytes>, text: Bytes, from: nat): (id: int)
    requires from <= |stems|
    ensures id == -1 || from <= id < |stems|
    ensures id >= 0 ==> SameStem(text, stems[id])
    decreases |stems| - from
  {
    if from == |stems| then -1 else if SameStem(text, stems[from]) then from else FindStem(stems, text, from + 1)
  }

  /** The stem table after looking `text` up and storing it if it is new. */
  function WithStem(stems: seq<Bytes>, text: Bytes): seq<Bytes> {
    if FindStem(stems, text, 0) == -1 then stems + [text] else stems
  }

  function StemNumber(stems: seq<Bytes>, text: Bytes): nat {
    if FindStem(stems, text, 0) == -1 then |stems| else FindStem(stems, text, 0)
  }

  datatype StemTable = StemTable(stems: seq<Bytes>, stemMap: seq<nat>)

  /** The first loop of load_mmap, with `n` stems to go. */
  function TakeStems(r: Bytes, n: nat, t: StemTable): Option<Read<StemTable>>
    decreases n
  {
    if n == 0 then Some(Read(t, r)) else
      match TakeStem(r)
      case None => None
      case Some(x) =>
        TakeStems(x.rest, n - 1, StemTable(WithStem(t.stems, x.value), t.stemMap + [StemNumber(t.stems, x.value)]))
  }

  /** The number in the file goes through the map; what is out of range means no stem. */
  function MapStem(stemMap: seq<nat>, id: int): int {
    if id < 0 || id >= Signed(Wrap32(|stemMap|)) || id >= |stemMap| then -1 else stemMap[id]
  }

  function TakeStrings(r: Bytes): Option<Read<(Bytes, Bytes)>> {
    match TakeText(r)
    case None => None
    case Some(context) =>
      match TakeText(context.rest)
      case None => None
      case Some(regex) => Some(Read((context.value, regex.value), regex.rest))
  }

  /** Mode, stem, meta flag and, from version 4 on, prefix length. */
  function TakeNumbers(r: Bytes, version: u32): Option<Read<(u32, u32, u32, u32)>> {
    match TakeU32(r)
    case None => None
    case Some(mode) =>
      match TakeU32(mode.rest)
      case None => None
      case Some(stem) =>
        match TakeU32(stem.rest)
        case None => None
        case Some(meta) =>
          if version < PREFIX_VERS then Some(Read((mode.value, stem.value, meta.value, 0), meta.rest)) else
            match TakeU32(meta.rest)
            case None => None
            case Some(prefix) => Some(Read((mode.value, stem.value, meta.value, prefix.value), prefix.rest))
  }

  /** The compiled expression and its study data, each of the size PCRE itself reports. */
  function TakePcre(r: Bytes, pcre: Pcre): Option<Read<(Bytes, Bytes)>> {
    match TakeBlob(r)
    case None => None
    case Some(blob) =>
      if pcre.size(blob.value) != |blob.value| then None else
        match TakeBlob(blob.rest)
        case None => None
        case Some(study) =>
          if pcre.studySize(blob.value, study.value) != |study.value| then None
          else Some(Read((blob.value, study.value), study.rest))
  }

  function MakeSpec(text: (Bytes, Bytes), n: (u32, u32, u32, u32), data: (Bytes, Bytes), stemMap: seq<nat>): Spec {
    Spec(text.0, text.1, n.0, MapStem(stemMap, Signed(n.1)), n.2 % 256, n.3, data.0, data.1)
  }

  function TakeSpec(r: Bytes, version: u32, stemMap: seq<nat>, pcre: Pcre): Option<Read<Spec>> {
    match TakeStrings(r)
    case None => None
    case Some(text) =>
      match TakeNumbers(text.rest, version)
      case None => None
      case Some(n) =>
        match TakePcre(n.rest, pcre)
        case None => None
        case Some(x) =>
          Some(Read(MakeSpec(text.value, n.value, x.value, stemMap), x.rest))
  }

  /** The second loop of load_mmap, with `n` specifications to go. */
  function TakeSpecs(r: Bytes, n: nat, version: u32, stemMap: seq<nat>, pcre: Pcre, specs: seq<Spec>): Option<Read<seq<Spec>>>
    decreases n
  {
    if n == 0 then Some(Read(specs, r)) else
      match TakeSpec(r, version, stemMap, pcre)
      case None => None
      case Some(x) => TakeSpecs(x.rest, n - 1, version, stemMap, pcre, specs + [x.value])
  }

  /** Magic number, version, and the PCRE version from format 2 on. */
  function TakeHeader(r: Bytes, pcre: Pcre): Option<Read<u32>> {
    match TakeU32(r)
    case None => None
    case Some(magic) =>
      if magic.value != MAGIC then None else
        match TakeU32(magic.rest)
        case None => None
        case Some(version) =>
          if version.value > MAX_VERS then None
          else if version.value < PCRE_VERS then Some(version) else
            match TakeU32(version.rest)
            case None => None
            case Some(n) =>
              if n.value != |pcre.version| then None else
                match Take(n.rest, n.value)
                case None => None
                case Some(text) =>
                  if CString(text.value) != pcre.version then None else Some(Read(version.value, text.rest))
  }

  /** A count that must not be zero. */
  function TakeCount(r: Bytes): Option<Read<u32>> {
    match TakeU32(r)
    case None => None
    case Some(n) => if n.value == 0 then None else Some(n)
  }

  /** load_mmap on a table that already holds `d`. */
  function LoadOnto(area: Bytes, pcre: Pcre, d: Data): Option<Data> {
    match TakeHeader(area, pcre)
    case None => None
    case Some(version) =>
      match TakeCount(version.rest)
      case None => None
      case Some(nstems) =>
        match TakeStems(nstems.rest, nstems.value, StemTable(d.stems, []))
        case None => None
        case Some(t) =>
          match TakeCount(t.rest)
          case None => None
          case Some(nspecs) =>
            match TakeSpecs(nspecs.rest, nspecs.value, version.value, t.value.stemMap, pcre, d.specs)
            case None => None
            case Some(specs) => Some(Data(t.value.stems, specs.value))
  }

  // ---- the loader -----------------------------------------------------

  lemma WithStemExtends(stems: seq<Bytes>, text: Bytes)
    ensures stems <= WithStem(stems, text)
  {
  }

  /** The structure that `LabelIndex.SavedData` models on text, here on the bytes of a file and with the compiled
      expressions. A file can hold any bytes, so a stem is found as strncmp finds it, up to a NUL; `LabelReload` shows that
      both agree on written tables. */
  class SavedData {
    var stems: seq<Bytes>
    var specs: seq<Spec>

    ghost function Contents(): Data
      reads this
    {
      Data(stems, specs)
    }

    constructor ()
      ensures Contents() == Data([], [])
    {
      stems, specs := [], [];
    }

    /** find_stem, then store_stem if there is none. */
    method StoreStem(text: Bytes) returns (id: nat)
      modifies this`stems
      ensures stems == WithStem(old(stems), text) && id == StemNumber(old(stems), text)
    {
      for i := 0 to |stems|
        invariant stems == old(stems)
        invariant FindStem(stems, text, 0) == FindStem(stems, text, i)
      {
        if SameStem(text, stems[i]) {
          return i;
        }
      }
      id := |stems|;
      stems := stems + [text];
    }

    /** The stem loop of load_mmap; `rest` is the part of the area the cursor has not passed. */
    method LoadStems(n: nat, start: Bytes) returns (ok: bool, stemMap: seq<nat>, rest: Bytes)
      modifies this`stems
      ensures ok <==> TakeStems(start, n, StemTable(old(stems), [])).Some?
      ensures ok ==> TakeStems(start, n, StemTable(old(stems), [])) == Some(Read(StemTable(stems, stemMap), rest))
      ensures old(stems) <= stems
    {
      hide TakeStem, WithStem, StemNumber;
      rest, stemMap := start, [];
      for i := 0 to n
        invariant old(stems) <= stems
        invariant TakeStems(start, n, StemTable(old(stems), [])) == TakeStems(rest, n - i, StemTable(stems, stemMap))
      {
        var x := TakeStem(rest);
        if x.None? {
          return false, stemMap, rest;
        }
        WithStemExtends(stems, x.value.value);
        var id := StoreStem(x.value.value);
        stemMap := stemMap + [id];
        rest := x.value.rest;
      }
      return true, stemMap, rest;
    }

    /** The specification loop of load_mmap; a specification counts once it has been read to its end. */
    method LoadSpecs(n: nat, version: u32, stemMap: seq<nat>, pcre: Pcre, start: Bytes) returns (ok: bool)
      modifies this`specs
      ensures var x := TakeSpecs(start, n, version, stemMap, pcre, old(specs));
              (ok <==> x.Some?) && (ok ==> x.value.value == specs)
      ensures old(specs) <= specs
    {
      hide TakeSpec;
      var rest := start;
      for i := 0 to n
        invariant old(specs) <= specs
        invariant TakeSpecs(start, n, version, stemMap, pcre, old(specs)) ==
                    TakeSpecs(rest, n - i, version, stemMap, pcre, specs)
      {
        var x := TakeSpec(rest, version, stemMap, pcre);
        if x.None? {
          return false;
        }
        specs := specs + [x.value.value];
        rest := x.value.rest;
      }
      return true;
    }

    /** load_mmap: no read passes the end of the area, whatever it holds; a failure leaves what was read so far. */
    method LoadMmap(area: Bytes, pcre: Pcre) returns (ok: bool)
      modifies this
      ensures ok <==> LoadOnto(area, pcre, old(Contents())).Some?
      ensures ok ==> Contents() == LoadOnto(area, pcre, old(Contents())).value
      ensures old(stems) <= stems && old(specs) <= specs
    {
      hide TakeHeader, TakeCount, TakeStems, TakeSpecs;
      var version := TakeHeader(area, pcre);
      if version.None? {
        return false;
      }
      var nstems := TakeCount(version.value.rest);
      if nstems.None? {
        return false;
      }
      var good, stemMap, rest := LoadStems(nstems.value.value, nstems.value.rest);
      if !good {
        return false;
      }
      var nspecs := TakeCount(rest);
      if nspecs.None? {
        return false;
      }
      ok := LoadSpecs(nspecs.value.value, version.value.value, stemMap, pcre, nspecs.value.rest);
    }
  }

  // ---- the round trip -------------------------------------------------

  lemma TakeThrough(a: Bytes, rest: Bytes)
    ensures Take(a + rest, |a|) == Some(Read(a, rest))
  {
    assert (a + rest)[..|a|] == a && (a + rest)[|a|..] == rest;
  }

  lemma U32Through(n: u32, rest: Bytes)
    ensures TakeU32(U32(n) + rest) == Some(Read(n, rest))
  {
    hide U32, FromU32;
    TakeThrough(U32(n), rest);
    U32RoundTrip(n);
  }

  lemma BlobThrough(s: Bytes, rest: Bytes)
    requires |s| < 0x1_0000_0000
    ensures TakeBlob(BlobBytes(s) + rest) == if s == [] then None else Some(Read(s, rest))
  {
    hide TakeU32, U32, Take;
    assert BlobBytes(s) + rest == U32(|s|) + (s + rest);
    U32Through(|s|, s + rest);
    TakeThrough(s, rest);
  }

  lemma TextThrough(s: Bytes, rest: Bytes)
    requires IsText(s) && |s| + 1 < 0x1_0000_0000
    ensures TakeText(TextBytes(s) + rest) == Some(Read(s, rest))
  {
    hide TakeBlob, CString;
    assert TextBytes(s) == BlobBytes(s + [NUL]);
    BlobThrough(s + [NUL], rest);
    CStringOfText(s, []);
    assert s + [NUL] + [] == s + [NUL];
  }

  lemma StemThrough(s: Bytes, rest: Bytes)
    requires |s| < 0xffff_ffff
    ensures TakeStem(StemBytes(s) + rest) == if s == [] then None else Some(Read(s, rest))
  {
    hide TakeU32, U32;
    var body := s + [NUL];
    assert StemBytes(s) + rest == U32(|s|) + (body + rest);
    U32Through(|s|, body + rest);
    TakeThrough(body, rest);
    assert body[..|s|] == s;
  }

  ghost predicate SpecWritable(s: Spec, nstems: nat, pcre: Pcre) {
    && IsText(s.context) && |s.context| + 1 < 0x1_0000_0000
    && IsText(s.regex) && |s.regex| + 1 < 0x1_0000_0000
    && -1 <= s.stemId < nstems
    && |s.blob| < 0x1_0000_0000 && pcre.size(s.blob) == |s.blob|
    && |s.study| < 0x1_0000_0000 && pcre.studySize(s.blob, s.study) == |s.study|
  }

  ghost predicate StemWritable(s: Bytes) {
    IsText(s) && |s| < 0xffff_ffff
  }

  /** What the types of the writer's data already promise: C strings and counts within their widths, stem numbers
      within the table, and regular expressions whose sizes the PCRE library reports truthfully. */
  ghost predicate Writable(d: Data, pcre: Pcre) {
    && |d.stems| < 0x8000_0000 && |d.specs| < 0x1_0000_0000
    && IsText(pcre.version) && |pcre.version| < 0x1_0000_0000
    && (forall i :: 0 <= i < |d.stems| ==> StemWritable(d.stems[i]))
    && (forall i :: 0 <= i < |d.specs| ==> SpecWritable(d.specs[i], |d.stems|, pcre))
  }

  predicate NoEmptyStem(stems: seq<Bytes>) {
    forall i :: 0 <= i < |stems| ==> stems[i] != []
  }

  predicate HasData(s: Spec) {
    s.blob != [] && s.study != []
  }

  predicate NoEmptyData(specs: seq<Spec>) {
    forall i :: 0 <= i < |specs| ==> HasData(specs[i])
  }

  /** The loader refuses a file with an empty section: no stems, no specifications, an empty stem, or a specification
      without compiled or study data. */
  predicate NoEmptySection(d: Data) {
    d.stems != [] && d.specs != [] && NoEmptyStem(d.stems) && NoEmptyData(d.specs)
  }

  /** All stems of the table are text. */
  ghost predicate TextStems(stems: seq<Bytes>) {
    forall i :: 0 <= i < |stems| ==> IsText(stems[i])
  }

  lemma SameText(a: Bytes, b: Bytes)
    requires IsText(a) && IsText(b)
    ensures SameStem(a, b) <==> a == b
  {
    CStringOfText(a, []);
    CStringOfText(b, []);
  }

  /** Looking a stem up or storing it gives a number that stands for its text. */
  lemma StemStored(stems: seq<Bytes>, text: Bytes)
    requires TextStems(stems) && IsText(text)
    ensures stems <= WithStem(stems, text) && TextStems(WithStem(stems, text))
    ensures StemNumber(stems, text) < |WithStem(stems, text)|
    ensures WithStem(stems, text)[StemNumber(stems, text)] == text
  {
    var id := FindStem(stems, text, 0);
    if id >= 0 {
      SameText(text, stems[id]);
    }
  }

  lemma {:induction false} FindStemNone(stems: seq<Bytes>, text: Bytes, from: nat, i: nat)
    requires from <= i < |stems| && FindStem(stems, text, from) == -1
    ensures !SameStem(text, stems[i])
    decreases |stems| - from
  {
    if from < i {
      FindStemNone(stems, text, from + 1, i);
    }
  }

  ghost predicate DistinctStems(stems: seq<Bytes>) {
    forall i, j :: 0 <= i < j < |stems| ==> stems[i] != stems[j]
  }

  /** No stem is stored twice. */
  lemma StoredOnce(stems: seq<Bytes>, text: Bytes)
    requires TextStems(stems) && IsText(text) && DistinctStems(stems)
    ensures DistinctStems(WithStem(stems, text))
    ensures forall s :: s in WithStem(stems, text) ==> s in stems || s == text
  {
    if FindStem(stems, text, 0) == -1 {
      forall i | 0 <= i < |stems| ensures stems[i] != text {
        FindStemNone(stems, text, 0, i);
      }
    }
  }

  /** Position `k` of the map stands for stem `k` of the file. */
  ghost predicate Maps(t: StemTable, done: seq<Bytes>) {
    && TextStems(t.stems) && |t.stemMap| == |done|
    && forall k :: 0 <= k < |done| ==> t.stemMap[k] < |t.stems| && t.stems[t.stemMap[k]] == done[k]
  }

  /** One more stem of the file. */
  lemma MapsNext(t: StemTable, done: seq<Bytes>, s: Bytes)
    requires Maps(t, done) && IsText(s)
    ensures t.stems <= WithStem(t.stems, s)
    ensures Maps(StemTable(WithStem(t.stems, s), t.stemMap + [StemNumber(t.stems, s)]), done + [s])
  {
    hide WithStem, StemNumber;
    StemStored(t.stems, s);
    var t' := StemTable(WithStem(t.stems, s), t.stemMap + [StemNumber(t.stems, s)]);
    forall k | 0 <= k < |done + [s]| ensures t'.stemMap[k] < |t'.stems| && t'.stems[t'.stemMap[k]] == (done + [s])[k] {
      if k < |done| {
        assert t'.stemMap[k] == t.stemMap[k];
      }
    }
  }

  lemma {:induction false} StemsThrough(stems: seq<Bytes>, rest: Bytes, t: StemTable, done: seq<Bytes>)
    requires forall i :: 0 <= i < |stems| ==> StemWritable(stems[i])
    requires Maps(t, done)
    ensures var x := TakeStems(StemsBytes(stems) + rest, |stems|, t);
            && (x.Some? <==> NoEmptyStem(stems))
            && (x.Some? ==> x.value.rest == rest && t.stems <= x.value.value.stems && Maps(x.value.value, done + stems))
  {
    hide TakeStem, StemBytes, WithStem, StemNumber, Maps;
    if stems == [] {
      assert StemsBytes(stems) + rest == rest && done + stems == done;
    } else {
      var s := stems[0];
      var more := StemsBytes(stems[1..]) + rest;
      assert StemsBytes(stems) + rest == StemBytes(s) + more;
      StemThrough(s, more);
      if s == [] {
        return;
      }
      MapsNext(t, done, s);
      var t' := StemTable(WithStem(t.stems, s), t.stemMap + [StemNumber(t.stems, s)]);
      StemsThrough(stems[1..], rest, t', done + [s]);
      assert done + [s] + stems[1..] == done + stems;
    }
  }

  /** Loading stems stores none twice and none that the file does not hold. */
  lemma {:induction false} StemsStoredOnce(stems: seq<Bytes>, rest: Bytes, t: StemTable)
    requires forall i :: 0 <= i < |stems| ==> StemWritable(stems[i])
    requires NoEmptyStem(stems) && TextStems(t.stems) && DistinctStems(t.stems)
    ensures var x := TakeStems(StemsBytes(stems) + rest, |stems|, t);
            && x.Some? && DistinctStems(x.value.value.stems)
            && forall s :: s in x.value.value.stems ==> s in t.stems || s in stems
  {
    hide TakeStem, StemBytes, WithStem, StemNumber, DistinctStems;
    if stems != [] {
      var s := stems[0];
      var more := StemsBytes(stems[1..]) + rest;
      assert StemsBytes(stems) + rest == StemBytes(s) + more;
      StemThrough(s, more);
      StemStored(t.stems, s);
      StoredOnce(t.stems, s);
      StemsStoredOnce(stems[1..], rest, StemTable(WithStem(t.stems, s), t.stemMap + [StemNumber(t.stems, s)]));
    }
  }

  /** A specification as it stands in the table after loading. */
  function Renumbered(s: Spec, stemMap: seq<nat>): Spec {
    s.(stemId := MapStem(stemMap, s.stemId))
  }

  lemma StringsThrough(a: Bytes, b: Bytes, rest: Bytes)
    requires IsText(a) && |a| + 1 < 0x1_0000_0000 && IsText(b) && |b| + 1 < 0x1_0000_0000
    ensures TakeStrings(TextBytes(a) + TextBytes(b) + rest) == Some(Read((a, b), rest))
  {
    hide TakeText, TextBytes;
    assert TextBytes(a) + TextBytes(b) + rest == TextBytes(a) + (TextBytes(b) + rest);
    TextThrough(a, TextBytes(b) + rest);
    TextThrough(b, rest);
  }

  // The layouts of all versions: version 2 brought the PCRE version, version 4 the prefix length.

  function HeaderBytesAt(pcre: Pcre, version: u32): Bytes {
    U32(MAGIC) + U32(version) + (if version >= 2 then BlobBytes(pcre.version) else [])
  }

  function PrefixBytesAt(n: u32, version: u32): Bytes {
    if version >= 4 then U32(n) else []
  }

  function SpecBytesAt(s: Spec, version: u32): Bytes {
    TextBytes(s.context) + TextBytes(s.regex) + U32(s.mode) + U32(Wrap32(s.stemId)) + U32(s.hasMeta)
    + PrefixBytesAt(s.prefixLen, version) + BlobBytes(s.blob) + BlobBytes(s.study)
  }

  function SpecsBytesAt(specs: seq<Spec>, version: u32): Bytes {
    if specs == [] then [] else SpecBytesAt(specs[0], version) + SpecsBytesAt(specs[1..], version)
  }

  function FileBytesAt(d: Data, pcre: Pcre, version: u32): Bytes {
    HeaderBytesAt(pcre, version)
    + U32(Wrap32(|d.stems|)) + StemsBytes(d.stems) + U32(Wrap32(|d.specs|)) + SpecsBytesAt(d.specs, version)
  }

  /** What a version keeps of a specification. */
  function KeptAt(s: Spec, version: u32): Spec {
    if version >= 4 then s else s.(prefixLen := 0)
  }

  lemma {:induction false} NewestSpecs(specs: seq<Spec>)
    ensures SpecsBytesAt(specs, 4) == SpecsBytes(specs)
  {
    hide TextBytes, BlobBytes, U32;
    if specs != [] {
      NewestSpecs(specs[1..]);
    }
  }

  /** The writer writes version 4. */
  lemma NewestFile(d: Data, pcre: Pcre)
    ensures FileBytesAt(d, pcre, 4) == FileBytes(d, pcre)
  {
    hide SpecsBytesAt, SpecsBytes, StemsBytes, U32, BlobBytes;
    NewestSpecs(d.specs);
  }

  lemma NumbersThrough(a: u32, b: u32, c: u32, d: u32, version: u32, rest: Bytes)
    ensures TakeNumbers(U32(a) + U32(b) + U32(c) + PrefixBytesAt(d, version) + rest, version)
            == Some(Read((a, b, c, if version >= 4 then d else 0), rest))
  {
    hide TakeU32, U32;
    var end := PrefixBytesAt(d, version) + rest;
    assert U32(a) + U32(b) + U32(c) + PrefixBytesAt(d, version) + rest == U32(a) + (U32(b) + (U32(c) + end));
    U32Through(a, U32(b) + (U32(c) + end));
    U32Through(b, U32(c) + end);
    U32Through(c, end);
    if version >= 4 {
      U32Through(d, rest);
    } else {
      assert end == rest;
    }
  }

  lemma PcreThrough(blob: Bytes, study: Bytes, rest: Bytes, pcre: Pcre)
    requires |blob| < 0x1_0000_0000 && pcre.size(blob) == |blob|
    requires |study| < 0x1_0000_0000 && pcre.studySize(blob, study) == |study|
    ensures TakePcre(BlobBytes(blob) + BlobBytes(study) + rest, pcre) ==
              if blob == [] || study == [] then None else Some(Read((blob, study), rest))
  {
    hide TakeBlob, BlobBytes;
    assert BlobBytes(blob) + BlobBytes(study) + rest == BlobBytes(blob) + (BlobBytes(study) + rest);
    BlobThrough(blob, BlobBytes(study) + rest);
    BlobThrough(study, rest);
  }

  lemma SignedRoundTrip(n: int)
    requires -0x8000_0000 <= n < 0x8000_0000
    ensures Signed(Wrap32(n)) == n
  {
  }

  lemma SpecThrough(s: Spec, rest: Bytes, stemMap: seq<nat>, pcre: Pcre, version: u32)
    requires |stemMap| < 0x8000_0000 && SpecWritable(s, |stemMap|, pcre)
    ensures TakeSpec(SpecBytesAt(s, version) + rest, version, stemMap, pcre) ==
              if HasData(s) then Some(Read(Renumbered(KeptAt(s, version), stemMap), rest)) else None
  {
    hide TakeStrings, TakeNumbers, TakePcre, TextBytes, BlobBytes, U32, MapStem, Signed, PrefixBytesAt;
    var tail := BlobBytes(s.blob) + BlobBytes(s.study) + rest;
    var id := Wrap32(s.stemId);
    var middle := U32(s.mode) + U32(id) + U32(s.hasMeta) + PrefixBytesAt(s.prefixLen, version) + tail;
    assert SpecBytesAt(s, version) + rest == TextBytes(s.context) + TextBytes(s.regex) + middle;
    StringsThrough(s.context, s.regex, middle);
    NumbersThrough(s.mode, id, s.hasMeta, s.prefixLen, version, tail);
    PcreThrough(s.blob, s.study, rest, pcre);
    SignedRoundTrip(s.stemId);
  }

  lemma {:induction false} SpecsThrough(specs: seq<Spec>, rest: Bytes, stemMap: seq<nat>, pcre: Pcre, before: seq<Spec>, version: u32)
    requires |stemMap| < 0x8000_0000
    requires forall i :: 0 <= i < |specs| ==> SpecWritable(specs[i], |stemMap|, pcre)
    ensures var x := TakeSpecs(SpecsBytesAt(specs, version) + rest, |specs|, version, stemMap, pcre, before);
            && (x.Some? <==> NoEmptyData(specs))
            && (x.Some? ==>
                  && |x.value.value| == |before| + |specs| && before <= x.value.value
                  && forall i :: 0 <= i < |specs| ==>
                       x.value.value[|before| + i] == Renumbered(KeptAt(specs[i], version), stemMap))
  {
    hide TakeSpec, SpecBytesAt, Renumbered, SpecWritable, HasData, KeptAt;
    if specs != [] {
      var s := specs[0];
      var more := SpecsBytesAt(specs[1..], version) + rest;
      assert SpecsBytesAt(specs, version) + rest == SpecBytesAt(s, version) + more;
      SpecThrough(s, more, stemMap, pcre, version);
      if !HasData(s) {
        return;
      }
      SpecsThrough(specs[1..], rest, stemMap, pcre, before + [Renumbered(KeptAt(s, version), stemMap)], version);
    }
  }

  lemma PcreVersionThrough(v: Bytes, rest: Bytes)
    requires IsText(v) && |v| < 0x1_0000_0000
    ensures TakeU32(BlobBytes(v) + rest) == Some(Read(|v|, v + rest)) && Take(v + rest, |v|) == Some(Read(v, rest)) && CString(v) == v
  {
    hide TakeU32, U32, Take, CString;
    assert BlobBytes(v) + rest == U32(|v|) + (v + rest);
    U32Through(|v|, v + rest);
    TakeThrough(v, rest);
    CStringOfText(v, []);
  }

  lemma HeaderThrough(rest: Bytes, pcre: Pcre, version: u32)
    requires IsText(pcre.version) && |pcre.version| < 0x1_0000_0000
    ensures TakeHeader(HeaderBytesAt(pcre, version) + rest, pcre) == if version > 4 then None else Some(Read(version, rest))
  {
    hide TakeU32, U32, Take, CString, BlobBytes;
    var v := pcre.version;
    var end := (if version >= 2 then BlobBytes(v) else []) + rest;
    assert HeaderBytesAt(pcre, version) + rest == U32(MAGIC) + (U32(version) + end);
    U32Through(MAGIC, U32(version) + end);
    U32Through(version, end);
    if version >= 2 {
      PcreVersionThrough(v, rest);
    } else {
      assert end == rest;
    }
  }

  /** The stem text of a specification, if it has a stem. */
  function StemText(d: Data, s: Spec): Option<Bytes> {
    if 0 <= s.stemId < |d.stems| then Some(d.stems[s.stemId]) else None
  }

  /** Loaded specification `got` is written specification `s`, stem numbers apart. */
  ghost predicate SameSpec(into: Data, got: Spec, from: Data, s: Spec) {
    && got == s.(stemId := got.stemId) && StemText(into, got) == StemText(from, s)
    && (s.stemId == -1 ==> got.stemId == -1)
  }

  lemma RenumberedSame(d: Data, loaded: Data, t: StemTable, s: Spec, pcre: Pcre)
    requires Maps(t, d.stems) && loaded.stems == t.stems && SpecWritable(s, |d.stems|, pcre) && |d.stems| < 0x8000_0000
    ensures SameSpec(loaded, Renumbered(s, t.stemMap), d, s)
  {
    if s.stemId >= 0 {
      assert t.stemMap[s.stemId] < |t.stems|;
    }
  }

  lemma KeptWritable(s: Spec, nstems: nat, pcre: Pcre, version: u32)
    requires SpecWritable(s, nstems, pcre)
    ensures SpecWritable(KeptAt(s, version), nstems, pcre)
  {
  }

  /** Loading a file of any version succeeds exactly when the version is known and no section is empty. Then, whatever
      the table already holds and whatever follows the file in its last page, it keeps the table, stores no stem twice,
      appends every specification in order, and gives each the stem text it had. */
  lemma VersionRoundTrip(d: Data, pcre: Pcre, table: Data, padding: Bytes, version: u32)
    requires Writable(d, pcre) && TextStems(table.stems)
    ensures var x := LoadOnto(FileBytesAt(d, pcre, version) + padding, pcre, table);
            && (x.Some? <==> version <= 4 && NoEmptySection(d))
            && (x.Some? ==>
                  && table.stems <= x.value.stems && table.specs <= x.value.specs
                  && |x.value.specs| == |table.specs| + |d.specs|
                  && (DistinctStems(table.stems) ==> DistinctStems(x.value.stems))
                  && (DistinctStems(table.stems) ==> forall s :: s in x.value.stems ==> s in table.stems || s in d.stems)
                  && forall i :: 0 <= i < |d.specs| ==>
                       SameSpec(x.value, x.value.specs[|table.specs| + i], d, KeptAt(d.specs[i], version)))
  {
    hide TakeHeader, TakeU32, U32, TakeStems, TakeSpecs, HeaderBytesAt, StemsBytes, SpecsBytesAt, SpecWritable, NoEmptyStem,
      NoEmptyData, DistinctStems, KeptAt;
    var specPart := SpecsBytesAt(d.specs, version) + padding;
    var fromCount := U32(|d.specs|) + specPart;
    var stemPart := StemsBytes(d.stems) + fromCount;
    var body := U32(|d.stems|) + stemPart;
    assert FileBytesAt(d, pcre, version) + padding == HeaderBytesAt(pcre, version) + body;
    HeaderThrough(body, pcre, version);
    if version > 4 {
      return;
    }
    U32Through(|d.stems|, stemPart);
    U32Through(|d.specs|, specPart);
    var t0 := StemTable(table.stems, []);
    StemsThrough(d.stems, fromCount, t0, []);
    if d.stems == [] || !NoEmptyStem(d.stems) {
      return;
    }
    var t := TakeStems(stemPart, |d.stems|, t0).value.value;
    assert [] + d.stems == d.stems;
    if DistinctStems(table.stems) {
      StemsStoredOnce(d.stems, fromCount, t0);
    }
    SpecsThrough(d.specs, padding, t.stemMap, pcre, table.specs, version);
    if NoEmptySection(d) {
      var loaded := LoadOnto(FileBytesAt(d, pcre, version) + padding, pcre, table).value;
      forall i | 0 <= i < |d.specs|
        ensures SameSpec(loaded, loaded.specs[|table.specs| + i], d, KeptAt(d.specs[i], version))
      {
        KeptWritable(d.specs[i], |d.stems|, pcre, version);
        RenumberedSame(d, loaded, t, KeptAt(d.specs[i], version), pcre);
      }
    }
  }

  /** The same of what the writer writes, which keeps every field. */
  lemma RoundTrip(d: Data, pcre: Pcre, table: Data, padding: Bytes)
    requires Writable(d, pcre) && TextStems(table.stems)
    ensures var x := LoadOnto(FileBytes(d, pcre) + padding, pcre, table);
            && (x.Some? <==> NoEmptySection(d))
            && (x.Some? ==>
                  && table.stems <= x.value.stems && table.specs <= x.value.specs
                  && |x.value.specs| == |table.specs| + |d.specs|
                  && (DistinctStems(table.stems) ==> DistinctStems(x.value.stems))
                  && (DistinctStems(table.stems) ==> forall s :: s in x.value.stems ==> s in table.stems || s in d.stems)
                  && forall i :: 0 <= i < |d.specs| ==> SameSpec(x.value, x.value.specs[|table.specs| + i], d, d.specs[i]))
  {
    hide LoadOnto, FileBytes, FileBytesAt, Writable, NoEmptySection, DistinctStems, SameSpec;
    NewestFile(d, pcre);
    VersionRoundTrip(d, pcre, table, padding, 4);
    var x := LoadOnto(FileBytes(d, pcre) + padding, pcre, table);
    if x.Some? {
      forall i | 0 <= i < |d.specs| ensures SameSpec(x.value, x.value.specs[|table.specs| + i], d, d.specs[i]) {
        assert KeptAt(d.specs[i], 4) == d.specs[i];
      }
    }
  }

  /** A configuration whose only path has no stem, such as /.*, is written but never loaded. */
  lemma StemlessFileRefused(s: Spec, pcre: Pcre, table: Data)
    requires s.stemId == -1 && SpecWritable(s, 0, pcre) && IsText(pcre.version) && |pcre.version| < 0x1_0000_0000
    requires TextStems(table.stems)
    ensures LoadOnto(FileBytes(Data([], [s]), pcre), pcre, table) == None
  {
    hide LoadOnto, FileBytes;
    RoundTrip(Data([], [s]), pcre, table, []);
    assert FileBytes(Data([], [s]), pcre) + [] == FileBytes(Data([], [s]), pcre);
  }
}
