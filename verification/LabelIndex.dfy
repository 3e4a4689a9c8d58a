/**
 The file-context table of libselinux: stems shared by many path specifications,
 the ordering of specifications, and the reverse scan that looks a path up.
 */
module LabelIndex {
  import opened Wrappers

  datatype Spec = Spec(regex: string, mode: nat, stemId: int, hasMeta: bool, prefixLen: nat, context: string)

  /** What pcre_exec says of a subject. */
  datatype Match = Hit | Miss | Partial | Fault

  /** Match a pattern, anchored at both ends, against a subject. */
  type Pcre = (string, string) -> Match

  datatype Result = Found(index: nat) | NotFound | Error

  const NONE := "<<none>>"

  predicate IsMeta(c: char) {
    c in ".^$?*+|[({"
  }

  /** The ten characters, one by one. */
  lemma MetaCharacters(c: char)
    ensures IsMeta(c) <==>
              || c == '.' || c == '^' || c == '$' || c == '?' || c == '*'
              || c == '+' || c == '|' || c == '[' || c == '(' || c == '{'
  {
  }

  /** strchr(s + from, '/'): the first slash at or after `from`, or the length. */
  function SlashFrom(s: string, from: nat): (p: nat)
    requires from <= |s|
    ensures from <= p <= |s|
    ensures p < |s| ==> s[p] == '/'
    ensures forall i :: from <= i < p ==> s[i] != '/'
    decreases |s| - from
  {
    if from == |s| || s[from] == '/' then from else SlashFrom(s, from + 1)
  }

  /** get_stem_from_spec: up to the second slash, when no meta character comes before it. */
  function SpecStem(s: string): (n: nat)
    requires s != ""
    ensures n < |s|
  {
    var p := SlashFrom(s, 1);
    if p == |s| || exists i :: 0 <= i < p && IsMeta(s[i]) then 0 else p
  }

  /** get_stem_from_file_name. */
  function FileStem(s: string): (n: nat)
    requires s != ""
    ensures n < |s|
  {
    var p := SlashFrom(s, 1);
    if p == |s| then 0 else p
  }

  predicate IsStem(t: string) {
    t != "" && forall i :: 1 <= i < |t| ==> t[i] != '/'
  }

  /** None of the ten characters stands in the text. */
  predicate HoldsNoMeta(t: string) {
    forall i :: 0 <= i < |t| ==> t[i] !in {'.', '^', '$', '?', '*', '+', '|', '[', '(', '{'}
  }

  /** The stem of an expression ends at its first slash behind position 0, provided none of the ten characters stands
      before that slash; otherwise there is none. */
  lemma SpecStemExactly(s: string, n: nat)
    requires s != "" && n > 0
    ensures SpecStem(s) == n <==>
              n < |s| && s[n] == '/' && (forall i :: 1 <= i < n ==> s[i] != '/') && HoldsNoMeta(s[..n])
  {
    var p := SlashFrom(s, 1);
    forall i | 0 <= i < p && i < |s| ensures IsMeta(s[i]) <==> s[i] in {'.', '^', '$', '?', '*', '+', '|', '[', '(', '{'} {
      MetaCharacters(s[i]);
    }
    if SpecStem(s) == n {
      assert forall i :: 0 <= i < n ==> s[..n][i] == s[i];
    } else if n < |s| && s[n] == '/' && forall i :: 1 <= i < n ==> s[i] != '/' {
      assert p == n;
      var i :| 0 <= i < p && IsMeta(s[i]);
      assert s[..n][i] == s[i];
    }
  }

  /** The stem of an expression is the literal text before its second slash. */
  lemma SpecStemIs(t: string, s: string)
    requires IsStem(t) && t + "/" <= s && forall i :: 0 <= i < |t| ==> !IsMeta(t[i])
    ensures SpecStem(s) == |t|
  {
    assert s[|t|] == '/';
    forall i | 0 <= i < |t| ensures s[i] == t[i] {
    }
    assert SlashFrom(s, 1) == |t|;
  }

  ghost predicate Distinct(stems: seq<string>) {
    forall i, j :: 0 <= i < j < |stems| ==> stems[i] != stems[j]
  }

  ghost predicate StemsOk(stems: seq<string>) {
    Distinct(stems) && forall i :: 0 <= i < |stems| ==> IsStem(stems[i])
  }

  /** A specification with a stem begins with that stem's text and a slash. */
  ghost predicate SpecOk(s: Spec, stems: seq<string>) {
    || s.stemId == -1
    || (0 <= s.stemId < |stems| && stems[s.stemId] + "/" <= s.regex)
  }

  ghost predicate SpecsOk(specs: seq<Spec>, stems: seq<string>) {
    forall i :: 0 <= i < |specs| ==> SpecOk(specs[i], stems)
  }

  // ---- slashes --------------------------------------------------------

  predicate NoDoubleSlash(s: string) {
    forall i :: 0 <= i < |s| - 1 ==> !(s[i] == '/' && s[i + 1] == '/')
  }

  /** Every slash that is followed by another is dropped. */
  function Collapsed(s: string): (r: string)
  {
    if |s| < 2 then s
    else if s[0] == '/' && s[1] == '/' then Collapsed(s[1..])
    else [s[0]] + Collapsed(s[1..])
  }

  lemma {:induction false} CollapsedClean(s: string)
    ensures NoDoubleSlash(Collapsed(s))
    ensures s != "" ==> Collapsed(s) != "" && Collapsed(s)[0] == s[0]
    ensures NoDoubleSlash(s) ==> Collapsed(s) == s
  {
    if |s| >= 2 {
      CollapsedClean(s[1..]);
      var rest := Collapsed(s[1..]);
      if NoDoubleSlash(s) {
        assert s == [s[0]] + s[1..];
        forall i | 0 <= i < |s[1..]| - 1 ensures !(s[1..][i] == '/' && s[1..][i + 1] == '/') {
          assert !(s[i + 1] == '/' && s[i + 2] == '/');
        }
        assert !(s[0] == '/' && s[1] == '/');
      }
      if !(s[0] == '/' && s[1] == '/') {
        var r := [s[0]] + rest;
        forall i | 0 <= i < |r| - 1 ensures !(r[i] == '/' && r[i + 1] == '/') {
          if i > 0 {
            assert r[i] == rest[i - 1] && r[i + 1] == rest[i];
          }
        }
      }
    }
  }

  /** Collapsing is the normal form of the rewriting `//` to `/`, at any place. */
  lemma {:induction false} CollapsedRewrites(a: string, b: string)
    ensures Collapsed(a + "//" + b) == Collapsed(a + "/" + b)
  {
    if a == "" {
      assert a + "//" + b == "//" + b && ("//" + b)[1..] == "/" + b;
      assert a + "/" + b == "/" + b;
    } else {
      CollapsedRewrites(a[1..], b);
      var x, y := a + "//" + b, a + "/" + b;
      assert x[1..] == a[1..] + "//" + b && y[1..] == a[1..] + "/" + b;
      assert x[1] == y[1] by {
        if |a| > 1 {
          assert x[1] == a[1] && y[1] == a[1];
        }
      }
    }
  }

  /** strstr(s + from, "//"). */
  function DoubleFrom(s: string, from: nat): (p: nat)
    requires from <= |s|
    ensures from <= p <= |s|
    ensures p < |s| ==> p + 1 < |s| && s[p] == '/' && s[p + 1] == '/'
    ensures forall i :: from <= i < p && i + 1 < |s| ==> !(s[i] == '/' && s[i + 1] == '/')
    decreases |s| - from
  {
    if from == |s| then from
    else if from + 1 < |s| && s[from] == '/' && s[from + 1] == '/' then from
    else DoubleFrom(s, from + 1)
  }

  /** Text without a double slash is copied as it stands. */
  lemma {:induction false} CollapsedPrefix(s: string, n: nat)
    requires n <= |s|
    requires forall i :: 0 <= i < n && i + 1 < |s| ==> !(s[i] == '/' && s[i + 1] == '/')
    ensures Collapsed(s) == s[..n] + Collapsed(s[n..])
    decreases n
  {
    if n == 0 {
      assert s[..0] == "" && s[0..] == s;
    } else if |s| < 2 {
      assert s[..n] == s && s[n..] == "";
    } else {
      var t := s[1..];
      CollapsedPrefix(t, n - 1);
      assert t[n - 1..] == s[n..] && s[..n] == [s[0]] + t[..n - 1];
    }
  }

  lemma CollapsedSegment(s: string, from: nat, to: nat)
    requires from <= to <= |s|
    requires forall i :: from <= i < to && i + 1 < |s| ==> !(s[i] == '/' && s[i + 1] == '/')
    ensures Collapsed(s[from..]) == s[from..to] + Collapsed(s[to..])
  {
    hide Collapsed;
    CollapsedPrefix(s[from..], to - from);
    assert s[from..][..to - from] == s[from..to] && s[from..][to - from..] == s[to..];
  }

  lemma CollapseStep(s: string, from: nat, next: nat)
    requires from <= next && next + 1 < |s| && s[next] == '/' && s[next + 1] == '/'
    requires forall i :: from <= i < next && i + 1 < |s| ==> !(s[i] == '/' && s[i + 1] == '/')
    ensures Collapsed(s[from..]) == s[from..next] + Collapsed(s[next + 1..])
  {
    CollapsedSegment(s, from, next);
    assert s[next..][1..] == s[next + 1..];
  }

  lemma CollapseEnd(s: string, from: nat)
    requires from <= |s|
    requires forall i :: from <= i && i + 1 < |s| ==> !(s[i] == '/' && s[i + 1] == '/')
    ensures Collapsed(s[from..]) == s[from..]
  {
    CollapsedSegment(s, from, |s|);
    assert s[|s|..] == "" && s[from..|s|] == s[from..];
  }

  /** The duplicate-slash loop of lookup_common. */
  method CollapseSlashes(key: string) returns (clean: string)
    ensures clean == Collapsed(key)
  {
    hide Collapsed, DoubleFrom;
    clean := "";
    var prev := 0;
    var next := DoubleFrom(key, 0);
    assert key[0..] == key;
    while next < |key|
      invariant 0 <= prev <= next <= |key| && next == DoubleFrom(key, prev)
      invariant Collapsed(key) == clean + Collapsed(key[prev..])
      decreases |key| - prev
    {
      CollapseStep(key, prev, next);
      clean := clean + key[prev..next];
      prev := next + 1;
      next := DoubleFrom(key, prev);
    }
    CollapseEnd(key, prev);
    clean := clean + key[prev..];
  }

  // ---- what one step of the scan decides ------------------------------

  /** The stem number of a path, or -1. */
  ghost function StemOfFile(stems: seq<string>, key: string): (id: int)
    requires key != ""
    ensures -1 <= id < |stems|
    ensures id >= 0 ==> FileStem(key) != 0 && stems[id] == key[..FileStem(key)]
  {
    var n := FileStem(key);
    if n != 0 && key[..n] in stems then
      var id :| 0 <= id < |stems| && stems[id] == key[..n];
      id
    else -1
  }

  predicate ModeFits(mode: nat, s: Spec) {
    mode == 0 || s.mode == 0 || mode == s.mode
  }

  /** The test the scan makes: pass over other stems, then match what follows the stem. */
  ghost function Check(pcre: Pcre, stems: seq<string>, s: Spec, key: string, mode: nat): Match
    requires key != "" && SpecOk(s, stems)
  {
    var fileStem := StemOfFile(stems, key);
    if !(s.stemId == -1 || s.stemId == fileStem) || !ModeFits(mode, s) then Miss
    else if s.stemId == -1 then pcre(s.regex, key)
    else pcre(s.regex[|stems[s.stemId]|..], key[FileStem(key)..])
  }

  /** The test without an index: the whole pattern on the whole path. */
  function FullCheck(pcre: Pcre, s: Spec, key: string, mode: nat): Match {
    if ModeFits(mode, s) then pcre(s.regex, key) else Miss
  }

  /** A specification for another kind of file is passed over; one for any kind, or a lookup for any kind, is not. */
  lemma KindsTried(pcre: Pcre, stems: seq<string>, s: Spec, key: string, mode: nat)
    requires key != "" && SpecOk(s, stems)
    ensures mode != 0 && s.mode != 0 && mode != s.mode ==>
              Check(pcre, stems, s, key, mode) == FullCheck(pcre, s, key, mode) == Miss
    ensures mode == 0 || s.mode == 0 || mode == s.mode ==>
              && FullCheck(pcre, s, key, mode) == pcre(s.regex, key)
              && (s.stemId == -1 ==> Check(pcre, stems, s, key, mode) == pcre(s.regex, key))
  {
  }

  /** The path's own stem is `t` exactly when `t` and a slash begin the path. */
  lemma StemMeaning(t: string, key: string)
    requires key != "" && IsStem(t)
    ensures FileStem(key) != 0 && key[..FileStem(key)] == t <==> t + "/" <= key
  {
    if t + "/" <= key {
      assert key[|t|] == '/';
      forall i | 1 <= i < |t| ensures key[i] != '/' {
        assert key[i] == t[i];
      }
      assert SlashFrom(key, 1) == |t|;
    } else if FileStem(key) == |t| {
      assert key[..|t| + 1] == key[..|t|] + "/";
    }
  }

  lemma StemOfFileMeaning(stems: seq<string>, key: string, id: nat)
    requires key != "" && StemsOk(stems) && id < |stems|
    ensures StemOfFile(stems, key) == id <==> stems[id] + "/" <= key
  {
    StemMeaning(stems[id], key);
    if stems[id] + "/" <= key {
      assert stems[id] in stems;
    }
  }

  /** A literal stem under complete matching: the whole pattern matches where the stem stands first and the remainder
      matches after it. */
  ghost predicate LiteralStem(pcre: Pcre, stem: string, rest: string) {
    forall key: string ::
      pcre(stem + rest, key) == if stem <= key then pcre(rest, key[|stem|..]) else Miss
  }

  /** The remainder matches only text that begins with a slash (among paths without double slashes). */
  ghost predicate SlashFirst(pcre: Pcre, stem: string, rest: string) {
    forall tail: string :: NoDoubleSlash(stem + tail) && pcre(rest, tail) != Miss ==> tail != "" && tail[0] == '/'
  }

  /** The index loses nothing for this specification. */
  ghost predicate IndexExact(pcre: Pcre, stems: seq<string>, s: Spec)
    requires SpecOk(s, stems)
  {
    forall key: string, mode: nat :: key != "" && NoDoubleSlash(key) ==>
      Check(pcre, stems, s, key, mode) == FullCheck(pcre, s, key, mode)
  }

  lemma CheckWithStem(pcre: Pcre, stems: seq<string>, s: Spec, key: string, mode: nat)
    requires key != "" && StemsOk(stems) && SpecOk(s, stems) && s.stemId >= 0
    ensures var stem := stems[s.stemId];
            Check(pcre, stems, s, key, mode) ==
              if stem + "/" <= key && (mode == 0 || s.mode == 0 || mode == s.mode)
              then pcre(s.regex[|stem|..], key[|stem|..])
              else Miss
  {
    StemOfFileMeaning(stems, key, s.stemId);
  }

  /** The stem filter is exact for a literal stem if and only if the remainder cannot match without a leading slash. */
  lemma StemFilterExact(pcre: Pcre, stems: seq<string>, s: Spec)
    requires StemsOk(stems) && SpecOk(s, stems) && s.stemId >= 0
    requires LiteralStem(pcre, stems[s.stemId], s.regex[|stems[s.stemId]|..])
    ensures IndexExact(pcre, stems, s) <==> SlashFirst(pcre, stems[s.stemId], s.regex[|stems[s.stemId]|..])
  {
    var stem := stems[s.stemId];
    var rest := s.regex[|stem|..];
    assert s.regex == stem + rest;
    if SlashFirst(pcre, stem, rest) {
      forall key: string, mode: nat | key != "" && NoDoubleSlash(key)
        ensures Check(pcre, stems, s, key, mode) == FullCheck(pcre, s, key, mode)
      {
        CheckWithStem(pcre, stems, s, key, mode);
        if stem <= key {
          var tail := key[|stem|..];
          assert key == stem + tail;
          assert stem + "/" <= key <==> tail != "" && tail[0] == '/';
        }
      }
    } else {
      var tail: string :| NoDoubleSlash(stem + tail) && pcre(rest, tail) != Miss && !(tail != "" && tail[0] == '/');
      var key := stem + tail;
      CheckWithStem(pcre, stems, s, key, 0);
      assert key[|stem|..] == tail;
      assert !(stem + "/" <= key);
      assert Check(pcre, stems, s, key, 0) != FullCheck(pcre, s, key, 0);
    }
  }

  /** What PCRE answers on the whole expression /usr/? and on what is left of it behind its stem. */
  function OptionalSlash(regex: string, key: string): Match {
    if (regex == "/usr/?" && key in {"/usr", "/usr/"}) || (regex == "/?" && key in {"", "/"}) then Hit else Miss
  }

  /** The path /usr matches /usr/?, but the index never tries it. */
  lemma OptionalSlashMissed()
    ensures var s := Spec("/usr/?", 0, 0, true, 5, "");
            && StemsOk(["/usr"]) && SpecOk(s, ["/usr"]) && SpecStem("/usr/?") == 4
            && LiteralStem(OptionalSlash, "/usr", "/?") && !SlashFirst(OptionalSlash, "/usr", "/?")
            && Check(OptionalSlash, ["/usr"], s, "/usr", 0) == Miss && FullCheck(OptionalSlash, s, "/usr", 0) == Hit
  {
    var s := Spec("/usr/?", 0, 0, true, 5, "");
    assert "/usr" + "/" == "/usr/" <= "/usr/?";
    SpecStemIs("/usr", "/usr/?");
    forall key: string ensures OptionalSlash("/usr" + "/?", key) ==
      if "/usr" <= key then OptionalSlash("/?", key[|"/usr"|..]) else Miss
    {
      assert "/usr" + "/?" == "/usr/?";
      if "/usr" <= key {
        assert key == "/usr" + key[4..];
        assert key == "/usr" <==> key[4..] == "";
        assert key == "/usr/" <==> key[4..] == "/";
      }
    }
    assert "/usr" + "" == "/usr";
    assert OptionalSlash("/?", "") == Hit;
    assert NoDoubleSlash("/usr" + "");
    CheckWithStem(OptionalSlash, ["/usr"], s, "/usr", 0);
  }

  // ---- partial matching ------------------------------------------------

  /** A literal stem under partial matching: a path that stops inside the stem or at its end could still go on to match,
      unless the remainder matches the empty text already. The matcher sees no empty path. */
  ghost predicate PartialStem(pcre: Pcre, stem: string, rest: string) {
    forall key: string :: key != "" ==>
      pcre(stem + rest, key) ==
        if stem < key then pcre(rest, key[|stem|..])
        else if key == stem && pcre(rest, "") == Hit then Hit
        else if key <= stem then Partial
        else Miss
  }

  /** A remainder that goes on behind the stem goes on with a slash (among paths without double slashes). */
  ghost predicate SlashNext(pcre: Pcre, stem: string, rest: string) {
    forall tail: string :: tail != "" && NoDoubleSlash(stem + tail) && pcre(rest, tail) != Miss ==> tail[0] == '/'
  }

  /** The path stops inside the stem of this specification, or at its end. */
  predicate Inside(stems: seq<string>, s: Spec, key: string) {
    0 <= s.stemId < |stems| && key <= stems[s.stemId]
  }

  /** A path that stops inside a stem is never handed to the matcher, although the whole expression is no miss there. */
  lemma PartialInsideStem(pcre: Pcre, stems: seq<string>, s: Spec, key: string, mode: nat)
    requires key != "" && StemsOk(stems) && SpecOk(s, stems) && Inside(stems, s, key) && ModeFits(mode, s)
    requires PartialStem(pcre, stems[s.stemId], s.regex[|stems[s.stemId]|..])
    ensures Check(pcre, stems, s, key, mode) == Miss
    ensures FullCheck(pcre, s, key, mode) == if key == stems[s.stemId] && pcre(s.regex[|key|..], "") == Hit then Hit else Partial
  {
    var stem := stems[s.stemId];
    assert s.regex == stem + s.regex[|stem|..];
    CheckWithStem(pcre, stems, s, key, mode);
  }

  /** The index loses nothing for this specification on the paths outside its stem. */
  ghost predicate ExactOutside(pcre: Pcre, stems: seq<string>, s: Spec)
    requires SpecOk(s, stems)
  {
    forall key: string, mode: nat :: key != "" && NoDoubleSlash(key) && !Inside(stems, s, key) ==>
      Check(pcre, stems, s, key, mode) == FullCheck(pcre, s, key, mode)
  }

  lemma OutsideAgrees(pcre: Pcre, stems: seq<string>, s: Spec, key: string, mode: nat)
    requires StemsOk(stems) && SpecOk(s, stems) && s.stemId >= 0
    requires PartialStem(pcre, stems[s.stemId], s.regex[|stems[s.stemId]|..])
    requires SlashNext(pcre, stems[s.stemId], s.regex[|stems[s.stemId]|..])
    requires key != "" && NoDoubleSlash(key) && !Inside(stems, s, key)
    ensures Check(pcre, stems, s, key, mode) == FullCheck(pcre, s, key, mode)
  {
    hide Check, StemsOk;
    var stem := stems[s.stemId];
    assert s.regex == stem + s.regex[|stem|..];
    CheckWithStem(pcre, stems, s, key, mode);
    if stem <= key {
      var tail := key[|stem|..];
      assert key == stem + tail;
      assert stem + "/" <= key <==> tail[0] == '/';
    }
  }

  lemma OutsideMisses(pcre: Pcre, stems: seq<string>, s: Spec, tail: string)
    requires StemsOk(stems) && SpecOk(s, stems) && s.stemId >= 0
    requires PartialStem(pcre, stems[s.stemId], s.regex[|stems[s.stemId]|..])
    requires tail != "" && tail[0] != '/' && pcre(s.regex[|stems[s.stemId]|..], tail) != Miss
    ensures Check(pcre, stems, s, stems[s.stemId] + tail, 0) != FullCheck(pcre, s, stems[s.stemId] + tail, 0)
  {
    hide Check, StemsOk;
    var stem := stems[s.stemId];
    var key := stem + tail;
    assert s.regex == stem + s.regex[|stem|..];
    CheckWithStem(pcre, stems, s, key, 0);
    assert key[|stem|..] == tail && stem < key;
  }

  /** Outside the stem the filter is exact under partial matching if and only if the remainder goes on with a slash. */
  lemma PartialFilterExact(pcre: Pcre, stems: seq<string>, s: Spec)
    requires StemsOk(stems) && SpecOk(s, stems) && s.stemId >= 0
    requires PartialStem(pcre, stems[s.stemId], s.regex[|stems[s.stemId]|..])
    ensures ExactOutside(pcre, stems, s) <==> SlashNext(pcre, stems[s.stemId], s.regex[|stems[s.stemId]|..])
  {
    var stem := stems[s.stemId];
    var rest := s.regex[|stem|..];
    if SlashNext(pcre, stem, rest) {
      hide Check, FullCheck, SlashNext, PartialStem, Inside;
      forall key: string, mode: nat | key != "" && NoDoubleSlash(key) && !Inside(stems, s, key)
        ensures Check(pcre, stems, s, key, mode) == FullCheck(pcre, s, key, mode)
      {
        OutsideAgrees(pcre, stems, s, key, mode);
      }
    } else {
      hide Check, FullCheck, PartialStem;
      var tail: string :| tail != "" && NoDoubleSlash(stem + tail) && pcre(rest, tail) != Miss && tail[0] != '/';
      OutsideMisses(pcre, stems, s, tail);
      assert !Inside(stems, s, stem + tail);
    }
  }

  ghost predicate PartlyIndexable(pcre: Pcre, stems: seq<string>, s: Spec) {
    && SpecOk(s, stems)
    && (s.stemId >= 0 ==>
          var stem := stems[s.stemId];
          var rest := s.regex[|stem|..];
          PartialStem(pcre, stem, rest) && SlashNext(pcre, stem, rest))
  }

  /** One specification under partial matching: the index agrees exactly when the path is not inside its stem, or the
      mode rules it out anyway; where it disagrees, it misses. */
  lemma PartialExact(pcre: Pcre, stems: seq<string>, s: Spec, key: string, mode: nat)
    requires key != "" && NoDoubleSlash(key) && StemsOk(stems) && PartlyIndexable(pcre, stems, s)
    ensures Check(pcre, stems, s, key, mode) == FullCheck(pcre, s, key, mode) <==> !(Inside(stems, s, key) && ModeFits(mode, s))
    ensures Check(pcre, stems, s, key, mode) in {Miss, FullCheck(pcre, s, key, mode)}
  {
    hide PartialStem, SlashNext;
    if s.stemId >= 0 {
      PartialFilterExact(pcre, stems, s);
      if Inside(stems, s, key) && ModeFits(mode, s) {
        PartialInsideStem(pcre, stems, s, key, mode);
      }
    }
  }

  /** What PCRE answers under partial matching on /usr/bin and on what is left of it behind its stem. */
  function UsrBin(regex: string, key: string): Match {
    if regex !in {"/usr/bin", "/bin"} || key == "" then Miss
    else if key == regex then Hit
    else if key <= regex then Partial
    else Miss
  }

  lemma UsrBinStem()
    ensures PartialStem(UsrBin, "/usr", "/bin") && SlashNext(UsrBin, "/usr", "/bin")
  {
    assert "/usr" + "/bin" == "/usr/bin";
    forall key: string | key != ""
      ensures UsrBin("/usr/bin", key) ==
                if "/usr" < key then UsrBin("/bin", key[4..])
                else if key == "/usr" && UsrBin("/bin", "") == Hit then Hit
                else if key <= "/usr" then Partial
                else Miss
    {
      if "/usr" < key {
        assert key == "/usr" + key[4..];
        assert key == "/usr/bin" <==> key[4..] == "/bin";
        assert key <= "/usr/bin" <==> key[4..] <= "/bin";
      } else if key <= "/usr/bin" {
        assert |key| <= 4;
        assert "/usr" == "/usr/bin"[..4];
      }
    }
    forall tail: string | tail != "" && UsrBin("/bin", tail) != Miss ensures tail[0] == '/' {
      assert tail <= "/bin";
    }
  }

  // ---- the scan -------------------------------------------------------

  /** `m` holds the test of each specification; the last that is not a miss decides. */
  ghost predicate Decides(m: seq<Match>, i: nat) {
    i < |m| && m[i] != Miss && forall j :: i < j < |m| ==> m[j] == Miss
  }

  /** The outcome of a lookup from the tests of all specifications. */
  ghost predicate LastMatch(specs: seq<Spec>, m: seq<Match>, partial: bool, r: Result)
    requires |m| == |specs|
  {
    match r
    case Found(i) => Decides(m, i) && (m[i] == Hit || (partial && m[i] == Partial)) && specs[i].context != NONE
    case NotFound => (forall j :: 0 <= j < |m| ==> m[j] == Miss)
                     || exists i: nat ::
                          Decides(m, i) && (m[i] == Hit || (partial && m[i] == Partial)) && specs[i].context == NONE
    case Error => exists i: nat :: Decides(m, i) && (m[i] == Fault || (!partial && m[i] == Partial))
  }

  /** There is one such outcome. */
  lemma LastMatchUnique(specs: seq<Spec>, m: seq<Match>, partial: bool, r: Result, q: Result)
    requires |m| == |specs| && LastMatch(specs, m, partial, r) && LastMatch(specs, m, partial, q)
    ensures r == q
  {
    forall i: nat, j: nat | Decides(m, i) && Decides(m, j) ensures i == j {
    }
  }

  ghost function Checks(pcre: Pcre, specs: seq<Spec>, stems: seq<string>, key: string, mode: nat): seq<Match>
    requires key != "" && SpecsOk(specs, stems)
  {
    seq(|specs|, i requires 0 <= i < |specs| => Check(pcre, stems, specs[i], key, mode))
  }

  ghost function FullChecks(pcre: Pcre, specs: seq<Spec>, key: string, mode: nat): seq<Match> {
    seq(|specs|, i requires 0 <= i < |specs| => FullCheck(pcre, specs[i], key, mode))
  }

  ghost predicate Indexable(pcre: Pcre, stems: seq<string>, s: Spec) {
    && SpecOk(s, stems)
    && (s.stemId >= 0 ==>
          var stem := stems[s.stemId];
          var rest := s.regex[|stem|..];
          LiteralStem(pcre, stem, rest) && SlashFirst(pcre, stem, rest))
  }

  /** When every stem is literal and its remainder starts with a slash, the indexed lookup is the brute-force one. */
  lemma IndexedIsBruteForce(pcre: Pcre, specs: seq<Spec>, stems: seq<string>, key: string, mode: nat)
    requires key != "" && NoDoubleSlash(key) && StemsOk(stems) && SpecsOk(specs, stems)
    requires forall i :: 0 <= i < |specs| ==> Indexable(pcre, stems, specs[i])
    ensures Checks(pcre, specs, stems, key, mode) == FullChecks(pcre, specs, key, mode)
  {
    forall i | 0 <= i < |specs| ensures Check(pcre, stems, specs[i], key, mode) == FullCheck(pcre, specs[i], key, mode) {
      if specs[i].stemId >= 0 {
        StemFilterExact(pcre, stems, specs[i]);
      }
    }
  }

  /** No specification that the mode admits has the path inside its stem. */
  predicate InsideNoStem(specs: seq<Spec>, stems: seq<string>, key: string, mode: nat) {
    forall i :: 0 <= i < |specs| ==> !(Inside(stems, specs[i], key) && ModeFits(mode, specs[i]))
  }

  /** Under partial matching the indexed tests are the brute-force ones if and only if the path is inside no stem. */
  lemma PartialIsBruteForce(pcre: Pcre, specs: seq<Spec>, stems: seq<string>, key: string, mode: nat)
    requires key != "" && NoDoubleSlash(key) && StemsOk(stems) && SpecsOk(specs, stems)
    requires forall i :: 0 <= i < |specs| ==> PartlyIndexable(pcre, stems, specs[i])
    ensures Checks(pcre, specs, stems, key, mode) == FullChecks(pcre, specs, key, mode) <==> InsideNoStem(specs, stems, key, mode)
  {
    hide Check, FullCheck, PartlyIndexable, Inside, ModeFits;
    var m, f := Checks(pcre, specs, stems, key, mode), FullChecks(pcre, specs, key, mode);
    forall i | 0 <= i < |specs| ensures m[i] == f[i] <==> !(Inside(stems, specs[i], key) && ModeFits(mode, specs[i])) {
      PartialExact(pcre, stems, specs[i], key, mode);
    }
  }

  /** The same specification decides with the index as without if and only if the path is not inside its stem. */
  lemma PartialDecides(pcre: Pcre, specs: seq<Spec>, stems: seq<string>, key: string, mode: nat, i: nat)
    requires key != "" && NoDoubleSlash(key) && StemsOk(stems) && SpecsOk(specs, stems)
    requires forall i :: 0 <= i < |specs| ==> PartlyIndexable(pcre, stems, specs[i])
    requires Decides(FullChecks(pcre, specs, key, mode), i)
    ensures i < |specs| && (Decides(Checks(pcre, specs, stems, key, mode), i) <==> !Inside(stems, specs[i], key))
  {
    hide Check, PartlyIndexable, Inside;
    var m, f := Checks(pcre, specs, stems, key, mode), FullChecks(pcre, specs, key, mode);
    forall j | 0 <= j < |specs| ensures m[j] == Miss || m[j] == f[j] {
      PartialExact(pcre, stems, specs[j], key, mode);
    }
    PartialExact(pcre, stems, specs[i], key, mode);
    assert f[i] == FullCheck(pcre, specs[i], key, mode) && m[i] == Check(pcre, stems, specs[i], key, mode);
  }

  /** The two answers of a table with one specification that only the index misses. */
  lemma LoneAnswers(pcre: Pcre, stems: seq<string>, s: Spec, key: string, mode: nat)
    requires key != "" && SpecOk(s, stems) && s.context != NONE
    requires Check(pcre, stems, s, key, mode) == Miss && FullCheck(pcre, s, key, mode) in {Hit, Partial}
    ensures LastMatch([s], Checks(pcre, [s], stems, key, mode), true, NotFound)
    ensures LastMatch([s], FullChecks(pcre, [s], key, mode), true, Found(0))
  {
    hide Check, FullCheck, SpecOk;
    var full := FullChecks(pcre, [s], key, mode);
    assert full[0] == FullCheck(pcre, s, key, mode) && Decides(full, 0);
  }

  lemma UsrTable(s: Spec)
    requires s.regex == "/usr/bin" && s.stemId == 0
    ensures StemsOk(["/usr"]) && SpecOk(s, ["/usr"]) && SpecStem("/usr/bin") == 4 && s.regex[4..] == "/bin"
  {
    assert "/usr" + "/" == "/usr/" <= "/usr/bin";
    SpecStemIs("/usr", "/usr/bin");
  }

  /** A partial lookup of /usr in a table that holds only /usr/bin finds nothing, while the whole expression does. */
  lemma UsrMissed()
    ensures var s := Spec("/usr/bin", 0, 0, false, 8, "");
            && StemsOk(["/usr"]) && SpecOk(s, ["/usr"]) && SpecStem("/usr/bin") == 4
            && PartlyIndexable(UsrBin, ["/usr"], s)
            && LastMatch([s], Checks(UsrBin, [s], ["/usr"], "/usr", 0), true, NotFound)
            && LastMatch([s], FullChecks(UsrBin, [s], "/usr", 0), true, Found(0))
  {
    var s := Spec("/usr/bin", 0, 0, false, 8, "");
    hide PartialStem, SlashNext, UsrBin, Check, FullCheck, SpecStem, LastMatch, Checks, FullChecks, StemsOk, SpecOk;
    UsrTable(s);
    UsrBinStem();
    PartialInsideStem(UsrBin, ["/usr"], s, "/usr", 0);
    LoneAnswers(UsrBin, ["/usr"], s, "/usr", 0);
  }

  // ---- ordering the table ---------------------------------------------

  /** The specifications with (or without) meta characters, in order. */
  function Select(specs: seq<Spec>, meta: bool): (r: seq<Spec>)
    ensures |r| <= |specs|
  {
    if specs == [] then [] else
      var last := specs[|specs| - 1];
      Select(specs[..|specs| - 1], meta) + (if last.hasMeta == meta then [last] else [])
  }

  /** Regular expressions first, exact paths last, each in file order. */
  function Ordered(specs: seq<Spec>): seq<Spec> {
    Select(specs, true) + Select(specs, false)
  }

  function Reverse(s: seq<Spec>): (r: seq<Spec>)
    ensures |r| == |s|
    ensures forall i :: 0 <= i < |s| ==> r[i] == s[|s| - 1 - i]
  {
    seq(|s|, i requires 0 <= i < |s| => s[|s| - 1 - i])
  }

  lemma {:induction false} SelectCounts(specs: seq<Spec>)
    ensures |Select(specs, true)| + |Select(specs, false)| == |specs|
    ensures multiset(Ordered(specs)) == multiset(specs)
  {
    if specs != [] {
      SelectCounts(specs[..|specs| - 1]);
      assert specs == specs[..|specs| - 1] + [specs[|specs| - 1]];
    }
  }

  lemma {:induction false} SelectKind(specs: seq<Spec>, meta: bool)
    ensures forall i :: 0 <= i < |Select(specs, meta)| ==> Select(specs, meta)[i].hasMeta == meta
  {
    if specs != [] {
      SelectKind(specs[..|specs| - 1], meta);
    }
  }

  lemma SelectPush(specs: seq<Spec>, s: Spec, meta: bool)
    ensures Select(specs + [s], meta) == Select(specs, meta) + (if s.hasMeta == meta then [s] else [])
  {
    assert (specs + [s])[..|specs|] == specs;
  }

  lemma SelectNone()
    ensures Select([], true) == [] && Select([], false) == [] && Reverse([]) == []
  {
  }

  lemma {:induction false} SelectAll(specs: seq<Spec>, meta: bool)
    requires forall i :: 0 <= i < |specs| ==> specs[i].hasMeta == meta
    ensures Select(specs, meta) == specs && Select(specs, !meta) == []
  {
    hide Select;
    if specs == [] {
      SelectNone();
    } else {
      var init, last := specs[..|specs| - 1], specs[|specs| - 1];
      SelectAll(init, meta);
      SelectPush(init, last, meta);
      SelectPush(init, last, !meta);
      assert specs == init + [last];
    }
  }

  lemma {:induction false} SelectConcat(a: seq<Spec>, b: seq<Spec>, meta: bool)
    ensures Select(a + b, meta) == Select(a, meta) + Select(b, meta)
  {
    if b == [] {
      assert a + b == a;
    } else {
      var b' := b[..|b| - 1];
      assert (a + b)[..|a + b| - 1] == a + b';
      SelectConcat(a, b', meta);
    }
  }

  /** Ordering twice is ordering once. */
  lemma OrderedIdempotent(specs: seq<Spec>)
    ensures Ordered(Ordered(specs)) == Ordered(specs)
  {
    var a, b := Select(specs, true), Select(specs, false);
    SelectKind(specs, true);
    SelectKind(specs, false);
    SelectConcat(a, b, true);
    SelectConcat(a, b, false);
    SelectAll(a, true);
    SelectAll(b, false);
  }

  /** The last specification that the test does not miss. */
  function LastTested(specs: seq<Spec>, test: Spec -> Match): Option<Spec> {
    if specs == [] then None
    else if test(specs[|specs| - 1]) != Miss then Some(specs[|specs| - 1])
    else LastTested(specs[..|specs| - 1], test)
  }

  /** The last specification of one kind that the test does not miss. */
  function LastOfKind(specs: seq<Spec>, meta: bool, test: Spec -> Match): Option<Spec> {
    if specs == [] then None
    else if specs[|specs| - 1].hasMeta == meta && test(specs[|specs| - 1]) != Miss then Some(specs[|specs| - 1])
    else LastOfKind(specs[..|specs| - 1], meta, test)
  }

  lemma {:induction false} LastConcat(a: seq<Spec>, b: seq<Spec>, test: Spec -> Match)
    ensures LastTested(a + b, test) == if LastTested(b, test).Some? then LastTested(b, test) else LastTested(a, test)
  {
    if b == [] {
      assert a + b == a;
    } else {
      assert (a + b)[..|a + b| - 1] == a + b[..|b| - 1];
      LastConcat(a, b[..|b| - 1], test);
    }
  }

  lemma LastPushed(specs: seq<Spec>, s: Spec, test: Spec -> Match)
    ensures LastTested(specs + [s], test) == if test(s) != Miss then Some(s) else LastTested(specs, test)
  {
    assert (specs + [s])[..|specs|] == specs;
  }

  lemma {:induction false} LastSelected(specs: seq<Spec>, meta: bool, test: Spec -> Match)
    ensures LastTested(Select(specs, meta), test) == LastOfKind(specs, meta, test)
  {
    if specs != [] {
      var init, last := specs[..|specs| - 1], specs[|specs| - 1];
      LastSelected(init, meta, test);
      LastPushed(Select(init, meta), last, test);
      assert Select(init, meta) + [] == Select(init, meta);
    }
  }

  lemma {:induction false} DeciderIsLast(specs: seq<Spec>, m: seq<Match>, i: nat, test: Spec -> Match)
    requires |m| == |specs| && (forall k :: 0 <= k < |m| ==> m[k] == test(specs[k])) && Decides(m, i)
    ensures LastTested(specs, test) == Some(specs[i])
  {
    var k := |specs| - 1;
    if i < k {
      DeciderIsLast(specs[..k], m[..k], i, test);
    }
  }

  /** The test of a lookup, for any specification. */
  ghost function Test(pcre: Pcre, stems: seq<string>, key: string, mode: nat): Spec -> Match
    requires key != ""
  {
    s => if SpecOk(s, stems) then Check(pcre, stems, s, key, mode) else Miss
  }

  /** In terms of the file: after sorting, the last exact path that is no miss decides, and only if there is none, the
      last such regular expression. */
  lemma FileOrderDecides(pcre: Pcre, specs: seq<Spec>, stems: seq<string>, key: string, mode: nat, i: nat)
    requires key != "" && SpecsOk(specs, stems) && SpecsOk(Ordered(specs), stems)
    requires Decides(Checks(pcre, Ordered(specs), stems, key, mode), i)
    ensures i < |Ordered(specs)|
    ensures var test := Test(pcre, stems, key, mode);
            Some(Ordered(specs)[i]) ==
              if LastOfKind(specs, false, test).Some? then LastOfKind(specs, false, test) else LastOfKind(specs, true, test)
  {
    hide Select, LastTested, LastOfKind, Check;
    var test := Test(pcre, stems, key, mode);
    DeciderIsLast(Ordered(specs), Checks(pcre, Ordered(specs), stems, key, mode), i, test);
    LastConcat(Select(specs, true), Select(specs, false), test);
    LastSelected(specs, true, test);
    LastSelected(specs, false, test);
  }

  /** In the ordered table an exact path that is not a miss decides before any regular expression does. */
  lemma ExactPathsWin(specs: seq<Spec>, m: seq<Match>, i: nat, j: nat)
    requires |m| == |specs| && specs == Ordered(specs) && Decides(m, i)
    requires j < |m| && m[j] != Miss && !specs[j].hasMeta
    ensures !specs[i].hasMeta && j <= i
  {
    SelectKind(specs, true);
    SelectKind(specs, false);
    SelectCounts(specs);
  }

  lemma ReverseAppend(s: seq<Spec>, x: Spec)
    ensures Reverse(s + [x]) == [x] + Reverse(s)
  {
  }

  lemma SelectStep(specs: seq<Spec>, i: nat, meta: bool)
    requires i < |specs|
    ensures Select(specs[..i + 1], meta) == Select(specs[..i], meta) + (if specs[i].hasMeta == meta then [specs[i]] else [])
  {
    assert specs[..i + 1][..i] == specs[..i];
  }

  /** The first loop of sort_specs: regular expressions fill the copy from the front, exact paths from the back. */
  method PartitionCopy(specs: seq<Spec>) returns (copy: array<Spec>, front: nat)
    ensures fresh(copy) && front <= copy.Length == |specs|
    ensures copy[..front] == Select(specs, true) && copy[front..] == Reverse(Select(specs, false))
  {
    hide Select, Reverse;
    SelectNone();
    var n := |specs|;
    copy := new Spec[n];
    front := 0;
    var back := n - 1;
    for i := 0 to n
      invariant 0 <= front <= back + 1 <= n && front + (n - 1 - back) == i
      invariant copy[..front] == Select(specs[..i], true)
      invariant copy[back + 1..] == Reverse(Select(specs[..i], false))
    {
      SelectStep(specs, i, true);
      SelectStep(specs, i, false);
      if specs[i].hasMeta {
        ghost var was := copy[..front];
        copy[front] := specs[i];
        front := front + 1;
        assert copy[..front] == was + [specs[i]];
      } else {
        ReverseAppend(Select(specs[..i], false), specs[i]);
        ghost var was := copy[back + 1..];
        copy[back] := specs[i];
        back := back - 1;
        assert copy[back + 1..] == [specs[i]] + was;
      }
    }
    assert specs[..n] == specs;
  }

  lemma ReverseTwice(s: seq<Spec>)
    ensures Reverse(Reverse(s)) == s
  {
  }

  /** The second loop of sort_specs: exchange the ends of the tail, working inwards. */
  method TurnTail(copy: array<Spec>, first: nat)
    requires first <= copy.Length
    modifies copy
    ensures copy[..first] == old(copy[..first]) && copy[first..] == Reverse(old(copy[first..]))
  {
    ghost var was := copy[..];
    var n := copy.Length;
    var front, back := first, n - 1;
    while front < back
      invariant first <= front <= n && back == n - 1 - (front - first)
      invariant forall k :: 0 <= k < first || front <= k <= back ==> copy[k] == was[k]
      invariant forall k :: first <= k < front || back < k < n ==> copy[k] == was[n - 1 - (k - first)]
    {
      copy[front], copy[back] := copy[back], copy[front];
      front, back := front + 1, back - 1;
    }
  }

  lemma KeptOk(specs: seq<Spec>, sorted: seq<Spec>, stems: seq<string>)
    requires SpecsOk(specs, stems) && sorted == Ordered(specs)
    ensures SpecsOk(sorted, stems)
  {
    SelectCounts(specs);
    forall i | 0 <= i < |sorted| ensures SpecOk(sorted[i], stems) {
      assert sorted[i] in multiset(sorted);
      assert sorted[i] in multiset(specs);
      assert sorted[i] in specs;
    }
  }

  // ---- meta characters ------------------------------------------------

  /** Behind an odd number of backslashes. */
  predicate Escaped(s: string, i: nat)
    requires i <= |s|
  {
    i > 0 && s[i - 1] == '\\' && !Escaped(s, i - 1)
  }

  predicate MetaAt(s: string, i: nat)
    requires i < |s|
  {
    IsMeta(s[i]) && !Escaped(s, i)
  }

  /** Position `n` holds the first meta character that is not escaped, or ends the text. */
  predicate FirstMeta(s: string, n: nat) {
    n <= |s| && (n < |s| ==> MetaAt(s, n)) && forall i :: 0 <= i < n ==> !MetaAt(s, i)
  }

  /** spec_hasMetaChars: a backslash takes the next character with it. */
  method HasMetaChars(regex: string) returns (hasMeta: bool, prefixLen: nat)
    ensures FirstMeta(regex, prefixLen) && (hasMeta <==> prefixLen < |regex|)
  {
    var c := 0;
    while c < |regex|
      invariant c <= |regex| + 1 && (c <= |regex| ==> !Escaped(regex, c))
      invariant forall i :: 0 <= i < c && i < |regex| ==> !MetaAt(regex, i)
    {
      if IsMeta(regex[c]) {
        return true, c;
      }
      if regex[c] == '\\' {
        c := c + 1;
      }
      c := c + 1;
    }
    return false, |regex|;
  }

  // ---- tables read from text -------------------------------------------

  ghost predicate StemOfText(s: Spec, stems: seq<string>) {
    && s.regex != ""
    && if SpecStem(s.regex) == 0 then s.stemId == -1
       else 0 <= s.stemId < |stems| && stems[s.stemId] == s.regex[..SpecStem(s.regex)]
  }

  /** Every specification has the stem of its own expression, or none. */
  ghost predicate FromText(specs: seq<Spec>, stems: seq<string>) {
    forall i :: 0 <= i < |specs| ==> StemOfText(specs[i], stems)
  }

  predicate PlainStems(stems: seq<string>) {
    forall i :: 0 <= i < |stems| ==> HoldsNoMeta(stems[i])
  }

  lemma KeptText(specs: seq<Spec>, stems: seq<string>, stems': seq<string>)
    requires FromText(specs, stems) && stems <= stems'
    ensures FromText(specs, stems')
  {
    forall i | 0 <= i < |specs| ensures StemOfText(specs[i], stems') {
      assert StemOfText(specs[i], stems);
    }
  }

  lemma PushedText(specs: seq<Spec>, s: Spec, stems: seq<string>)
    requires FromText(specs, stems) && StemOfText(s, stems)
    ensures FromText(specs + [s], stems)
  {
    hide StemOfText;
  }

  /** An escape that stands for a character or a class of characters. */
  predicate PlainEscape(c: char) {
    c in "dDsSwW" || !('0' <= c <= '9' || 'A' <= c <= 'Z' || 'a' <= c <= 'z')
  }

  /** An expression of one branch, made of characters, classes, groups and repetitions, whose parts do not ask where in
      the text they stand. */
  predicate Simple(s: string, i: nat, depth: nat, inClass: bool)
    decreases |s| - i
  {
    if i >= |s| then depth == 0 && !inClass
    else if s[i] == '\\' then i + 1 < |s| && PlainEscape(s[i + 1]) && Simple(s, i + 2, depth, inClass)
    else if inClass then
      s[i] != '[' && !(s[i] == ']' && i > 0 && s[i - 1] in {'[', '^'}) && Simple(s, i + 1, depth, s[i] != ']')
    else if s[i] == '[' then Simple(s, i + 1, depth, true)
    else if s[i] == '(' then i + 1 < |s| && s[i + 1] !in {'?', '*'} && Simple(s, i + 1, depth + 1, false)
    else if s[i] == ')' then depth > 0 && Simple(s, i + 1, depth - 1, false)
    else s[i] != '^' && !(s[i] == '|' && depth == 0) && Simple(s, i + 1, depth, false)
  }

  /** Text that stands for itself in an expression. */
  predicate Literal(t: string) {
    HoldsNoMeta(t) && '\\' !in t && ')' !in t
  }

  /** What a matcher makes of literal text in front of a path component, when the rest is simple. */
  ghost predicate LiteralLaw(pcre: Pcre) {
    forall stem: string, rest: string :: Literal(stem) && "/" <= rest && Simple(rest, 0, 0, false) ==>
      LiteralStem(pcre, stem, rest)
  }

  ghost predicate PartialLaw(pcre: Pcre) {
    forall stem: string, rest: string :: Literal(stem) && "/" <= rest && Simple(rest, 0, 0, false) ==>
      PartialStem(pcre, stem, rest)
  }

  /** The specification has a stem without backslash and closing parenthesis, and its remainder is simple. */
  predicate SimpleRemainder(stems: seq<string>, s: Spec)
    requires SpecOk(s, stems) && s.stemId >= 0
  {
    && '\\' !in stems[s.stemId] && ')' !in stems[s.stemId]
    && Simple(s.regex[|stems[s.stemId]|..], 0, 0, false)
  }

  lemma LiteralParts(stems: seq<string>, s: Spec)
    requires SpecOk(s, stems) && StemOfText(s, stems) && s.stemId >= 0 && SimpleRemainder(stems, s)
    ensures var rest := s.regex[|stems[s.stemId]|..];
            Literal(stems[s.stemId]) && "/" <= rest && Simple(rest, 0, 0, false)
  {
    hide Simple, SpecStem;
    var n := SpecStem(s.regex);
    SpecStemExactly(s.regex, n);
    assert s.regex[n..][0] == '/';
  }

  /** The stems a table takes from text are literal to the matcher. */
  lemma LiteralFromText(pcre: Pcre, stems: seq<string>, s: Spec)
    requires LiteralLaw(pcre) && SpecOk(s, stems) && StemOfText(s, stems)
    requires s.stemId >= 0 && SimpleRemainder(stems, s)
    ensures LiteralStem(pcre, stems[s.stemId], s.regex[|stems[s.stemId]|..])
  {
    hide Simple, LiteralStem, StemOfText, SimpleRemainder, Literal;
    LiteralParts(stems, s);
  }

  /** So the lookup through the index is the lookup without, for a table read from text. */
  lemma TextIsBruteForce(pcre: Pcre, specs: seq<Spec>, stems: seq<string>, key: string, mode: nat)
    requires LiteralLaw(pcre) && key != "" && NoDoubleSlash(key)
    requires StemsOk(stems) && SpecsOk(specs, stems) && FromText(specs, stems)
    requires forall i :: 0 <= i < |specs| && specs[i].stemId >= 0 ==>
               && SimpleRemainder(stems, specs[i])
               && SlashFirst(pcre, stems[specs[i].stemId], specs[i].regex[|stems[specs[i].stemId]|..])
    ensures Checks(pcre, specs, stems, key, mode) == FullChecks(pcre, specs, key, mode)
  {
    hide LiteralStem, LiteralLaw, SlashFirst, StemOfText, SimpleRemainder, Checks, FullChecks, StemsOk;
    forall i | 0 <= i < |specs| ensures Indexable(pcre, stems, specs[i]) {
      if specs[i].stemId >= 0 {
        LiteralFromText(pcre, stems, specs[i]);
      }
    }
    IndexedIsBruteForce(pcre, specs, stems, key, mode);
  }

  /** And a partial lookup is the lookup without the index exactly for the paths inside no stem. */
  lemma TextPartly(pcre: Pcre, specs: seq<Spec>, stems: seq<string>, key: string, mode: nat)
    requires PartialLaw(pcre) && key != "" && NoDoubleSlash(key)
    requires StemsOk(stems) && SpecsOk(specs, stems) && FromText(specs, stems)
    requires forall i :: 0 <= i < |specs| && specs[i].stemId >= 0 ==>
               && SimpleRemainder(stems, specs[i])
               && SlashNext(pcre, stems[specs[i].stemId], specs[i].regex[|stems[specs[i].stemId]|..])
    ensures Checks(pcre, specs, stems, key, mode) == FullChecks(pcre, specs, key, mode) <==>
              InsideNoStem(specs, stems, key, mode)
  {
    hide PartialStem, SlashNext, StemOfText, SimpleRemainder, Checks, FullChecks, StemsOk, InsideNoStem, Literal, Simple;
    forall i | 0 <= i < |specs| ensures PartlyIndexable(pcre, stems, specs[i]) {
      if specs[i].stemId >= 0 {
        LiteralParts(stems, specs[i]);
      }
    }
    PartialIsBruteForce(pcre, specs, stems, key, mode);
  }

  // ---- the table in memory --------------------------------------------

  lemma KindBits(mode: nat)
    ensures (mode - mode / 0x1000 % 16 * 0x1000) % 0x1_0000 < 0x1000
  {
    var a, b, c := mode / 0x1_0000, mode / 0x1000 % 16, mode % 0x1000;
    assert mode == 0x1_0000 * a + 0x1000 * b + c;
    assert mode - b * 0x1000 == 0x1_0000 * a + c;
  }

  /** mode & S_IFMT: the kind of file, without the permission bits. */
  function FileKind(mode: nat): (kind: nat)
    ensures kind % 0x1000 == 0 && kind < 0x1_0000 && (mode - kind) % 0x1_0000 < 0x1000
  {
    KindBits(mode);
    mode / 0x1000 % 16 * 0x1000
  }

  class SavedData {
    var specs: seq<Spec>
    var stems: seq<string>

    ghost predicate Valid()
      reads this
    {
      StemsOk(stems) && SpecsOk(specs, stems)
    }

    constructor ()
      ensures Valid() && specs == [] && stems == []
    {
      specs, stems := [], [];
    }

    /** find_stem: the first stem with this text. */
    method FindStem(text: string) returns (id: int)
      ensures -1 <= id < |stems|
      ensures id >= 0 ==> stems[id] == text
      ensures id == -1 ==> text !in stems
    {
      for i := 0 to |stems|
        invariant text !in stems[..i]
      {
        if stems[i] == text {
          return i;
        }
      }
      return -1;
    }

    /** find_stem_from_spec: the number of the stem, stored first if it is new. */
    method StemForSpec(regex: string) returns (id: int)
      requires Valid() && regex != ""
      modifies this`stems
      ensures Valid() && old(stems) <= stems
      ensures -1 <= id < |stems|
      ensures if SpecStem(regex) == 0 then id == -1 else id >= 0 && stems[id] == regex[..SpecStem(regex)]
      ensures old(PlainStems(stems)) ==> PlainStems(stems)
    {
      var n := SpecStem(regex);
      if n == 0 {
        return -1;
      }
      id := FindStem(regex[..n]);
      if id == -1 {
        SpecStemExactly(regex, n);
        stems := stems + [regex[..n]];
        id := |stems| - 1;
      }
    }

    /** The part of process_line that stores a specification. */
    method AddSpec(regex: string, mode: nat, context: string)
      requires Valid() && regex != ""
      modifies this
      ensures Valid() && old(stems) <= stems && |specs| == |old(specs)| + 1 && specs[..|old(specs)|] == old(specs)
      ensures var s := specs[|old(specs)|];
              && s.regex == regex && s.mode == mode && s.context == context && (s.stemId == -1 <==> SpecStem(regex) == 0)
              && FirstMeta(regex, s.prefixLen) && (s.hasMeta <==> s.prefixLen < |regex|)
      ensures old(FromText(specs, stems)) ==> FromText(specs, stems)
      ensures old(PlainStems(stems)) ==> PlainStems(stems)
    {
      hide FromText, PlainStems;
      var id := StemForSpec(regex);
      var hasMeta, prefixLen := HasMetaChars(regex);
      specs := specs + [Spec(regex, mode, id, hasMeta, prefixLen, context)];
      if old(FromText(specs, stems)) {
        KeptText(old(specs), old(stems), stems);
        PushedText(old(specs), specs[|old(specs)|], stems);
      }
      assert id >= 0 ==> stems[id] + "/" == regex[..SpecStem(regex) + 1];
    }

    /** sort_specs: exact paths are written from the back and then turned round in place. */
    method SortSpecs()
      requires Valid()
      modifies this`specs
      ensures Valid() && specs == Ordered(old(specs))
    {
      hide Select, Reverse;
      var copy, front := PartitionCopy(specs);
      TurnTail(copy, front);
      ReverseTwice(Select(specs, false));
      assert copy[..] == copy[..front] + copy[front..];
      KeptOk(specs, copy[..], stems);
      specs := copy[..];
    }

    /** The body of lookup_common, for a mode that holds only the kind of file. */
    method Scan(pcre: Pcre, path: string, mode: nat, partial: bool) returns (r: Result)
      requires Valid() && path != ""
      ensures Collapsed(path) != ""
      ensures LastMatch(specs, Checks(pcre, specs, stems, Collapsed(path), mode), partial, r)
    {
      var key := CollapseSlashes(path);
      CollapsedClean(path);
      ghost var m := Checks(pcre, specs, stems, key, mode);
      var n := FileStem(key);
      var fileStem := -1;
      if n != 0 {
        fileStem := FindStem(key[..n]);
      }
      assert fileStem == StemOfFile(stems, key);
      var i := |specs| - 1;
      while i >= 0
        invariant -1 <= i < |specs|
        invariant forall j :: i < j < |specs| ==> m[j] == Miss
      {
        var s := specs[i];
        if (s.stemId == -1 || s.stemId == fileStem) && ModeFits(mode, s) {
          var rc := if s.stemId == -1 then pcre(s.regex, key) else pcre(s.regex[|stems[s.stemId]|..], key[n..]);
          assert m[i] == rc;
          if rc == Hit || (partial && rc == Partial) {
            assert Decides(m, i);
            return if s.context == "<<none>>" then NotFound else Found(i);
          }
          if rc != Miss {
            assert Decides(m, i);
            return Error;
          }
        }
        i := i - 1;
      }
      return NotFound;
    }

    /** lookup_common: collapse slashes, find the path's stem, scan backwards. */
    method Lookup(pcre: Pcre, path: string, kind: nat, partial: bool) returns (r: Result)
      requires Valid() && path != ""
      ensures Collapsed(path) != ""
      ensures LastMatch(specs, Checks(pcre, specs, stems, Collapsed(path), FileKind(kind)), partial, r)
      ensures (forall i :: 0 <= i < |specs| ==> Indexable(pcre, stems, specs[i])) ==>
                LastMatch(specs, FullChecks(pcre, specs, Collapsed(path), FileKind(kind)), partial, r)
      ensures (forall i :: 0 <= i < |specs| ==> PartlyIndexable(pcre, stems, specs[i]))
              && InsideNoStem(specs, stems, Collapsed(path), FileKind(kind)) ==>
                LastMatch(specs, FullChecks(pcre, specs, Collapsed(path), FileKind(kind)), partial, r)
    {
      hide LastMatch, Indexable, PartlyIndexable, InsideNoStem;
      CollapsedClean(path);
      r := Scan(pcre, path, FileKind(kind), partial);
      if forall i :: 0 <= i < |specs| ==> Indexable(pcre, stems, specs[i]) {
        IndexedIsBruteForce(pcre, specs, stems, Collapsed(path), FileKind(kind));
      }
      if forall i :: 0 <= i < |specs| ==> PartlyIndexable(pcre, stems, specs[i]) {
        PartialIsBruteForce(pcre, specs, stems, Collapsed(path), FileKind(kind));
      }
    }
  }

  /** A line of the configuration, once its fields have been read. */
  datatype Line = Line(regex: string, mode: nat, context: string)

  lemma NoText()
    ensures FromText([], []) && PlainStems([])
  {
  }

  /** Reading a configuration line by line: the specifications in file order, with the stems of their expressions. */
  method ReadLines(lines: seq<Line>) returns (table: SavedData)
    requires forall i :: 0 <= i < |lines| ==> lines[i].regex != ""
    ensures fresh(table) && table.Valid() && FromText(table.specs, table.stems) && PlainStems(table.stems)
    ensures |table.specs| == |lines| && forall i :: 0 <= i < |lines| ==>
              var s := table.specs[i];
              s.regex == lines[i].regex && s.mode == lines[i].mode && s.context == lines[i].context
  {
    hide FromText, PlainStems, StemOfText, FirstMeta, SpecStem, StemsOk, SpecsOk;
    table := new SavedData();
    NoText();
    for i := 0 to |lines|
      invariant fresh(table) && table.Valid() && FromText(table.specs, table.stems) && PlainStems(table.stems)
      invariant |table.specs| == i && forall k :: 0 <= k < i ==>
                  var s := table.specs[k];
                  s.regex == lines[k].regex && s.mode == lines[k].mode && s.context == lines[k].context
    {
      ghost var was := table.specs;
      table.AddSpec(lines[i].regex, lines[i].mode, lines[i].context);
      assert forall k :: 0 <= k < i ==> table.specs[k] == was[k];
    }
  }
}
