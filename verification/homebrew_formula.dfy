/** The Homebrew formula generator: for every tool package that names a
    binary and at least one build target, the Ruby lines of a formula class
    with one download block per supported target, grouped by operating
    system. File system reads become parameters: a tool directory's
    `package.json` is an `Option<Package>`, and the SHA-256 digests of the
    built binaries that could be read form a map from file name to hex text. */
module HomebrewFormula {
  import opened Results
  import opened Strings
  import opened Filters

  // ---------------------------------------------------------------------------
  // Class names
  // ---------------------------------------------------------------------------

  /** `s.split(sep)` for a one-character separator: the maximal runs between
      separators, in order, including the empty runs at either end. */
  function Split(s: string, sep: char): (r: seq<string>)
    ensures |r| >= 1
    ensures forall k :: 0 <= k < |r| ==> sep !in r[k]
    decreases |s|
  {
    if |s| == 0 then [""]
    else
      var rest := Split(s[1..], sep);
      if s[0] == sep then [""] + rest
      else [[s[0]] + rest[0]] + rest[1..]
  }

  /** Splitting and re-joining with the same separator gives back the text. */
  lemma {:induction false} SplitJoinRoundTrip(s: string, sep: char)
    ensures Join(Split(s, sep), [sep]) == s
    decreases |s|
  {
    if |s| > 0 {
      var rest := Split(s[1..], sep);
      SplitJoinRoundTrip(s[1..], sep);
      if s[0] == sep {
        assert Join(Split(s, sep), [sep]) == "" + [sep] + Join(rest, [sep]);
      } else if |rest| == 1 {
        assert Split(s, sep) == [[s[0]] + rest[0]];
      } else {
        assert Split(s, sep)[1..] == rest[1..];
        assert Join(rest, [sep]) == rest[0] + [sep] + Join(rest[1..], [sep]);
      }
    }
  }

  /** `toUpperCase` on one character; only the ASCII letters are mapped. */
  function Upper(c: char): (u: char)
    ensures 'a' <= c <= 'z' ==> u as int == c as int - 32
    ensures !('a' <= c <= 'z') ==> u == c
  {
    if 'a' <= c <= 'z' then (c as int - 32) as char else c
  }

  /** `w[0].toUpperCase() + w.slice(1)`: defined only for a non-empty word
      (on an empty one `w[0]` is `undefined` and the call throws). */
  function Capitalize(w: string): string
    requires |w| > 0
  {
    [Upper(w[0])] + w[1..]
  }

  predicate NoEmptyWord(words: seq<string>) {
    forall k :: 0 <= k < |words| ==> |words[k]| > 0
  }

  function CapitalizeAll(words: seq<string>): string
    requires NoEmptyWord(words)
    decreases |words|
  {
    if |words| == 0 then "" else Capitalize(words[0]) + CapitalizeAll(words[1..])
  }

  /** `toPascalCase(name)`: `None` when the name has an empty `-`-separated
      word, where the source throws a `TypeError`. */
  function ToPascalCase(name: string): (r: Option<string>)
    ensures r.Some? <==> NoEmptyWord(Split(name, '-'))
  {
    var words := Split(name, '-');
    if NoEmptyWord(words) then Some(CapitalizeAll(words)) else None
  }

  /** A character-by-character reading of the same conversion: drop every
      `-` and upper-case the first character and each one after a `-`. */
  function PascalScan(s: string, capitalizeNext: bool): string
    decreases |s|
  {
    if |s| == 0 then ""
    else if s[0] == '-' then PascalScan(s[1..], true)
    else [if capitalizeNext then Upper(s[0]) else s[0]] + PascalScan(s[1..], false)
  }

  function Hyphens(s: string): nat
    decreases |s|
  {
    if |s| == 0 then 0 else (if s[0] == '-' then 1 else 0) + Hyphens(s[1..])
  }

  lemma {:induction false} PascalScanOfWords(s: string, capitalizeNext: bool)
    requires NoEmptyWord(Split(s, '-')[1..])
    requires capitalizeNext ==> |Split(s, '-')[0]| > 0
    ensures var w := Split(s, '-');
            PascalScan(s, capitalizeNext)
            == (if capitalizeNext then Capitalize(w[0]) else w[0]) + CapitalizeAll(w[1..])
    decreases |s|
  {
    var w := Split(s, '-');
    if |s| > 0 {
      var rest := Split(s[1..], '-');
      if s[0] == '-' {
        assert w == [""] + rest && w[1..] == rest;
        assert NoEmptyWord(rest[1..]) by {
          forall k | 0 <= k < |rest[1..]| ensures |rest[1..][k]| > 0 {
            assert rest[1..][k] == w[1..][k + 1];
          }
        }
        PascalScanOfWords(s[1..], true);
      } else {
        assert w[0] == [s[0]] + rest[0] && w[1..] == rest[1..];
        PascalScanOfWords(s[1..], false);
        if capitalizeNext {
          assert Capitalize(w[0]) == [Upper(s[0])] + rest[0];
        }
      }
    }
  }

  /** The class name is the character-by-character reading. */
  lemma PascalCaseByCharacters(name: string)
    requires ToPascalCase(name).Some?
    ensures ToPascalCase(name) == Some(PascalScan(name, true))
  {
    var w := Split(name, '-');
    assert CapitalizeAll(w) == Capitalize(w[0]) + CapitalizeAll(w[1..]);
    PascalScanOfWords(name, true);
  }

  lemma {:induction false} PascalScanShape(s: string, capitalizeNext: bool)
    ensures |PascalScan(s, capitalizeNext)| == |s| - Hyphens(s)
    ensures '-' !in PascalScan(s, capitalizeNext)
    decreases |s|
  {
    if |s| > 0 {
      PascalScanShape(s[1..], true);
      PascalScanShape(s[1..], false);
      if s[0] != '-' {
        assert Upper(s[0]) != '-';
      }
    }
  }

  /** A class name drops exactly the hyphens, contains none, and starts with
      the name's first character upper-cased. */
  lemma PascalCaseShape(name: string)
    requires ToPascalCase(name).Some?
    ensures var c := ToPascalCase(name).value;
            |c| == |name| - Hyphens(name) && '-' !in c && |c| > 0 && c[0] == Upper(name[0])
  {
    PascalCaseByCharacters(name);
    PascalScanShape(name, true);
    var w := Split(name, '-');
    assert |w[0]| > 0;
    assert name[0] != '-';
  }

  /** Every `-` is followed by a character other than `-`: no doubled hyphen
      and no hyphen at the end. */
  predicate HyphensFollowed(s: string) {
    forall i :: 0 <= i < |s| && s[i] == '-' ==> i + 1 < |s| && s[i + 1] != '-'
  }

  lemma {:induction false} InnerWordsNonEmpty(t: string)
    ensures NoEmptyWord(Split(t, '-')[1..]) <==> HyphensFollowed(t)
    decreases |t|
  {
    if |t| > 0 {
      var u := t[1..];
      var rest := Split(u, '-');
      InnerWordsNonEmpty(u);
      assert HyphensFollowed(t) <==> (t[0] == '-' ==> |u| > 0 && u[0] != '-') && HyphensFollowed(u) by {
        if HyphensFollowed(t) {
          forall i | 0 <= i < |u| && u[i] == '-' ensures i + 1 < |u| && u[i + 1] != '-' {
            assert t[i + 1] == u[i];
          }
        }
        if (t[0] == '-' ==> |u| > 0 && u[0] != '-') && HyphensFollowed(u) {
          forall i | 0 <= i < |t| && t[i] == '-' ensures i + 1 < |t| && t[i + 1] != '-' {
            if i > 0 {
              assert u[i - 1] == t[i];
            }
          }
        }
      }
      if t[0] == '-' {
        assert Split(t, '-')[1..] == rest;
        assert NoEmptyWord(rest) <==> |rest[0]| > 0 && NoEmptyWord(rest[1..]) by {
          if |rest[0]| > 0 && NoEmptyWord(rest[1..]) {
            forall k | 0 <= k < |rest| ensures |rest[k]| > 0 {
              if k > 0 {
                assert rest[k] == rest[1..][k - 1];
              }
            }
          }
          if NoEmptyWord(rest) {
            forall k | 0 <= k < |rest[1..]| ensures |rest[1..][k]| > 0 {
              assert rest[1..][k] == rest[k + 1];
            }
          }
        }
        FirstWordNonEmpty(u);
      } else {
        assert Split(t, '-')[1..] == rest[1..];
      }
    }
  }

  lemma FirstWordNonEmpty(s: string)
    ensures |Split(s, '-')[0]| > 0 <==> |s| > 0 && s[0] != '-'
  {
  }

  /** `toPascalCase` throws exactly on an empty name, a name that starts with
      `-`, and a name with a hyphen not followed by a letter run. */
  lemma PascalCaseDefinedIff(name: string)
    ensures ToPascalCase(name).Some? <==> |name| > 0 && name[0] != '-' && HyphensFollowed(name)
  {
    var w := Split(name, '-');
    InnerWordsNonEmpty(name);
    FirstWordNonEmpty(name);
    assert NoEmptyWord(w) <==> |w[0]| > 0 && NoEmptyWord(w[1..]) by {
      if |w[0]| > 0 && NoEmptyWord(w[1..]) {
        forall k | 0 <= k < |w| ensures |w[k]| > 0 {
          if k > 0 {
            assert w[k] == w[1..][k - 1];
          }
        }
      }
      if NoEmptyWord(w) {
        forall k | 0 <= k < |w[1..]| ensures |w[1..][k]| > 0 {
          assert w[1..][k] == w[k + 1];
        }
      }
    }
  }

  lemma {:induction false} SplitWithoutSeparator(s: string, sep: char)
    requires sep !in s
    ensures Split(s, sep) == [s]
    decreases |s|
  {
    if |s| > 0 {
      SplitWithoutSeparator(s[1..], sep);
      assert s == [s[0]] + s[1..];
    }
  }

  /** A class name is its own class name. */
  lemma PascalCaseIdempotent(name: string)
    requires ToPascalCase(name).Some?
    ensures ToPascalCase(ToPascalCase(name).value) == ToPascalCase(name)
  {
    var c := ToPascalCase(name).value;
    PascalCaseShape(name);
    SplitWithoutSeparator(c, '-');
    var single: seq<string> := [c];
    assert single[1..] == [] && single[0] == c;
    assert CapitalizeAll(single) == Capitalize(c) + CapitalizeAll(single[1..]);
    assert Upper(c[0]) == c[0];
    assert Capitalize(c) == [c[0]] + c[1..] == c;
    assert NoEmptyWord(single);
    assert CapitalizeAll(single[1..]) == "";
    assert CapitalizeAll(single) == c;
    assert ToPascalCase(c) == Some(CapitalizeAll(single));
  }

  // ---------------------------------------------------------------------------
  // Platforms
  // ---------------------------------------------------------------------------

  /** A Homebrew platform block: `on_<os>` around `on_<arch>`. */
  datatype Platform = Platform(os: string, arch: string)

  /** The toolbox build target to Homebrew platform table. */
  function PlatformOf(target: string): Option<Platform> {
    if target == "darwin-arm64" then Some(Platform("macos", "arm"))
    else if target == "darwin-x64" then Some(Platform("macos", "intel"))
    else if target == "linux-arm64" then Some(Platform("linux", "arm"))
    else if target == "linux-x64" then Some(Platform("linux", "intel"))
    else None
  }

  predicate Supported(p: Platform) {
    (p.os == "macos" || p.os == "linux") && (p.arch == "arm" || p.arch == "intel")
  }

  /** The build target a supported platform comes from. */
  function TargetOf(p: Platform): string {
    (if p.os == "macos" then "darwin" else "linux") + "-" + (if p.arch == "arm" then "arm64" else "x64")
  }

  /** The table is one-to-one: a target maps to a platform exactly when it
      is that platform's target. */
  lemma PlatformTableInverse(target: string, p: Platform)
    ensures PlatformOf(target) == Some(p) <==> Supported(p) && target == TargetOf(p)
  {
    assert "darwin" + "-" + "arm64" == "darwin-arm64";
    assert "darwin" + "-" + "x64" == "darwin-x64";
    assert "linux" + "-" + "arm64" == "linux-arm64";
    assert "linux" + "-" + "x64" == "linux-x64";
  }

  // ---------------------------------------------------------------------------
  // Grouping by operating system
  // ---------------------------------------------------------------------------

  const Placeholder: string := "PLACEHOLDER"

  /** One download block: architecture, target and the binary's digest. */
  datatype Entry = Entry(arch: string, target: string, hash: string)

  /** An entry with the operating system it is filed under. */
  datatype Placed = Placed(os: string, entry: Entry)

  /** `byOS[os]`: the entries of one operating system, in push order. */
  datatype OsGroup = OsGroup(os: string, entries: seq<Entry>)

  /** The file name of a built binary under `dist/`. */
  function DistFile(binary: string, target: string): string {
    binary + "-" + target
  }

  /** The hex digest of the built binary, or the placeholder when the file
      cannot be read. */
  function HashOf(binary: string, target: string, digests: map<string, string>): (h: string)
    ensures DistFile(binary, target) in digests ==> h == digests[DistFile(binary, target)]
    ensures DistFile(binary, target) !in digests ==> h == Placeholder
  {
    var file := DistFile(binary, target);
    if file in digests then digests[file] else Placeholder
  }

  function SupportedCount(targets: seq<string>): nat
    decreases |targets|
  {
    if |targets| == 0 then 0
    else (if PlatformOf(targets[0]).Some? then 1 else 0) + SupportedCount(targets[1..])
  }

  /** The targets with a platform, in order, each with its digest; targets
      missing from the table are skipped. */
  function Placements(binary: string, targets: seq<string>, digests: map<string, string>): (r: seq<Placed>)
    ensures |r| == SupportedCount(targets)
    ensures forall k :: 0 <= k < |r| ==>
              r[k].entry.target in targets
              && PlatformOf(r[k].entry.target) == Some(Platform(r[k].os, r[k].entry.arch))
              && r[k].entry.hash == HashOf(binary, r[k].entry.target, digests)
    decreases |targets|
  {
    if |targets| == 0 then []
    else
      var rest := Placements(binary, targets[1..], digests);
      match PlatformOf(targets[0])
      case None => rest
      case Some(pm) => [Placed(pm.os, Entry(pm.arch, targets[0], HashOf(binary, targets[0], digests)))] + rest
  }

  /** The placement one target contributes, if its platform is known. */
  function PlaceAt(binary: string, digests: map<string, string>, target: string): (p: Option<Placed>)
    ensures p.Some? <==> PlatformOf(target).Some?
    ensures p.Some? ==> p.value.entry.target == target
  {
    match PlatformOf(target)
    case None => None
    case Some(pm) => Some(Placed(pm.os, Entry(pm.arch, target, HashOf(binary, target, digests))))
  }

  lemma {:induction false} PlacementsFilter(binary: string, targets: seq<string>, digests: map<string, string>)
    ensures Placements(binary, targets, digests) == FilterMap(targets, t => PlaceAt(binary, digests, t))
    decreases |targets|
  {
    if |targets| > 0 {
      PlacementsFilter(binary, targets[1..], digests);
    }
  }

  /** The placements are exactly the supported targets, each once and in input
      order: `idx` lists the positions of the targets they came from. */
  lemma PlacementsAreSubsequence(binary: string, targets: seq<string>, digests: map<string, string>)
    returns (idx: seq<nat>)
    ensures |idx| == |Placements(binary, targets, digests)| && StrictlyIncreasing(idx)
    ensures forall k :: 0 <= k < |idx| ==>
              idx[k] < |targets| && Placements(binary, targets, digests)[k].entry.target == targets[idx[k]]
    ensures forall i :: 0 <= i < |targets| ==> (i in idx <==> PlatformOf(targets[i]).Some?)
  {
    var f := t => PlaceAt(binary, digests, t);
    PlacementsFilter(binary, targets, digests);
    idx := FilterMapIndices(targets, f);
    forall k | 0 <= k < |idx|
      ensures Placements(binary, targets, digests)[k].entry.target == targets[idx[k]]
    {
      assert f(targets[idx[k]]) == PlaceAt(binary, digests, targets[idx[k]]);
    }
    forall i | 0 <= i < |targets|
      ensures i in idx <==> PlatformOf(targets[i]).Some?
    {
      assert f(targets[i]) == PlaceAt(binary, digests, targets[i]);
    }
  }

  /** `byOS[pm.os].push(...)`: append to the group of that system, or open a
      new group at the end. */
  function AddTo(groups: seq<OsGroup>, p: Placed): seq<OsGroup>
    decreases |groups|
  {
    if |groups| == 0 then [OsGroup(p.os, [p.entry])]
    else if groups[0].os == p.os then [OsGroup(p.os, groups[0].entries + [p.entry])] + groups[1..]
    else [groups[0]] + AddTo(groups[1..], p)
  }

  /** The grouping loop, one placement at a time. */
  function GroupByOs(ps: seq<Placed>): seq<OsGroup>
    decreases |ps|
  {
    if |ps| == 0 then [] else AddTo(GroupByOs(ps[..|ps| - 1]), ps[|ps| - 1])
  }

  /** `systems` with `os` added at the end unless already present. */
  function Register(systems: seq<string>, os: string): seq<string> {
    if os in systems then systems else systems + [os]
  }

  /** The systems in order of first appearance. */
  function OsOrder(ps: seq<Placed>): seq<string>
    decreases |ps|
  {
    if |ps| == 0 then [] else Register(OsOrder(ps[..|ps| - 1]), ps[|ps| - 1].os)
  }

  /** The entries filed under `os`, in order. */
  function EntriesFor(ps: seq<Placed>, os: string): seq<Entry>
    decreases |ps|
  {
    if |ps| == 0 then []
    else EntriesFor(ps[..|ps| - 1], os) + (if ps[|ps| - 1].os == os then [ps[|ps| - 1].entry] else [])
  }

  function GroupsFor(ps: seq<Placed>, systems: seq<string>): (r: seq<OsGroup>)
    ensures |r| == |systems|
    ensures forall j :: 0 <= j < |systems| ==> r[j] == OsGroup(systems[j], EntriesFor(ps, systems[j]))
    decreases |systems|
  {
    if |systems| == 0 then []
    else [OsGroup(systems[0], EntriesFor(ps, systems[0]))] + GroupsFor(ps, systems[1..])
  }

  predicate Distinct(xs: seq<string>) {
    forall i, j :: 0 <= i < j < |xs| ==> xs[i] != xs[j]
  }

  lemma SnocSplit(ps: seq<Placed>, p: Placed)
    ensures (ps + [p])[..|ps + [p]| - 1] == ps && (ps + [p])[|ps + [p]| - 1] == p
  {
  }

  /** The systems in `OsOrder` are distinct and are exactly the systems
      that occur. */
  lemma OsOrderShape(ps: seq<Placed>)
    ensures Distinct(OsOrder(ps))
    ensures forall os :: os in OsOrder(ps) <==> exists k :: 0 <= k < |ps| && ps[k].os == os
    ensures forall os :: os !in OsOrder(ps) ==> EntriesFor(ps, os) == []
  {
    OsOrderDistinct(ps);
    OsOrderMembers(ps);
    OsOrderAbsent(ps);
  }

  lemma {:induction false} OsOrderDistinct(ps: seq<Placed>)
    ensures Distinct(OsOrder(ps))
    decreases |ps|
  {
    if |ps| > 0 {
      OsOrderDistinct(ps[..|ps| - 1]);
    }
  }

  lemma {:induction false} OsOrderMembers(ps: seq<Placed>)
    ensures forall os :: os in OsOrder(ps) <==> exists k :: 0 <= k < |ps| && ps[k].os == os
    decreases |ps|
  {
    if |ps| > 0 {
      var init := ps[..|ps| - 1];
      OsOrderMembers(init);
      forall os ensures os in OsOrder(ps) <==> exists k :: 0 <= k < |ps| && ps[k].os == os {
        if os in OsOrder(ps) && os != ps[|ps| - 1].os {
          assert os in OsOrder(init);
          var k :| 0 <= k < |init| && init[k].os == os;
          assert ps[k].os == os;
        }
        if exists k :: 0 <= k < |ps| && ps[k].os == os {
          var k :| 0 <= k < |ps| && ps[k].os == os;
          if k < |init| {
            assert init[k].os == os;
          }
        }
      }
    }
  }

  lemma {:induction false} OsOrderAbsent(ps: seq<Placed>)
    ensures forall os :: os !in OsOrder(ps) ==> EntriesFor(ps, os) == []
    decreases |ps|
  {
    if |ps| > 0 {
      OsOrderAbsent(ps[..|ps| - 1]);
    }
  }

  lemma EntriesForSnoc(ps: seq<Placed>, p: Placed, os: string)
    ensures EntriesFor(ps + [p], os) == EntriesFor(ps, os) + (if p.os == os then [p.entry] else [])
  {
    SnocSplit(ps, p);
  }

  lemma {:induction false} GroupsForUnaffected(ps: seq<Placed>, p: Placed, systems: seq<string>)
    requires p.os !in systems
    ensures GroupsFor(ps + [p], systems) == GroupsFor(ps, systems)
    decreases |systems|
  {
    if |systems| > 0 {
      EntriesForSnoc(ps, p, systems[0]);
      assert p.os != systems[0];
      assert EntriesFor(ps + [p], systems[0]) == EntriesFor(ps, systems[0]);
      GroupsForUnaffected(ps, p, systems[1..]);
      assert GroupsFor(ps + [p], systems) == [OsGroup(systems[0], EntriesFor(ps + [p], systems[0]))] + GroupsFor(ps + [p], systems[1..]);
    }
  }

  lemma AddToNoGroups(ps: seq<Placed>, p: Placed)
    requires EntriesFor(ps, p.os) == []
    ensures AddTo([], p) == GroupsFor(ps + [p], [p.os])
  {
    EntriesForSnoc(ps, p, p.os);
    var single := [p.os];
    assert single[0] == p.os && single[1..] == [];
    assert EntriesFor(ps + [p], p.os) == [p.entry];
    assert GroupsFor(ps + [p], single) == [OsGroup(p.os, EntriesFor(ps + [p], p.os))] + GroupsFor(ps + [p], []);
  }

  lemma AddToFirstGroup(ps: seq<Placed>, p: Placed, systems: seq<string>)
    requires |systems| > 0 && systems[0] == p.os && p.os !in systems[1..]
    ensures AddTo(GroupsFor(ps, systems), p) == GroupsFor(ps + [p], systems)
  {
    EntriesForSnoc(ps, p, p.os);
    GroupsForUnaffected(ps, p, systems[1..]);
    var g := GroupsFor(ps, systems);
    assert g[0] == OsGroup(p.os, EntriesFor(ps, p.os)) && g[1..] == GroupsFor(ps, systems[1..]);
    assert GroupsFor(ps + [p], systems)
        == [OsGroup(p.os, EntriesFor(ps + [p], p.os))] + GroupsFor(ps + [p], systems[1..]);
  }

  lemma {:induction false} AddToGroups(ps: seq<Placed>, p: Placed, systems: seq<string>)
    requires Distinct(systems)
    requires p.os !in systems ==> EntriesFor(ps, p.os) == []
    ensures AddTo(GroupsFor(ps, systems), p) == GroupsFor(ps + [p], Register(systems, p.os))
    decreases |systems|
  {
    if |systems| == 0 {
      AddToNoGroups(ps, p);
    } else if systems[0] == p.os {
      AddToFirstGroup(ps, p, systems);
    } else {
      AddToGroups(ps, p, systems[1..]);
      AddToLaterGroup(ps, p, systems);
    }
  }

  lemma RegisterPastFirst(systems: seq<string>, os: string)
    requires |systems| > 0 && systems[0] != os
    ensures Register(systems, os) == [systems[0]] + Register(systems[1..], os)
  {
    assert systems == [systems[0]] + systems[1..];
  }

  lemma {:induction false} AddToLaterGroup(ps: seq<Placed>, p: Placed, systems: seq<string>)
    requires |systems| > 0 && systems[0] != p.os
    requires AddTo(GroupsFor(ps, systems[1..]), p) == GroupsFor(ps + [p], Register(systems[1..], p.os))
    ensures AddTo(GroupsFor(ps, systems), p) == GroupsFor(ps + [p], Register(systems, p.os))
  {
    var later := Register(systems[1..], p.os);
    RegisterPastFirst(systems, p.os);
    EntriesForSnoc(ps, p, systems[0]);
    var g := GroupsFor(ps, systems);
    assert g[0] == OsGroup(systems[0], EntriesFor(ps, systems[0])) && g[1..] == GroupsFor(ps, systems[1..]);
    assert AddTo(g, p) == [g[0]] + AddTo(g[1..], p);
    var after := [systems[0]] + later;
    assert after[0] == systems[0] && after[1..] == later;
    assert EntriesFor(ps + [p], systems[0]) == EntriesFor(ps, systems[0]);
    calc {
      GroupsFor(ps + [p], Register(systems, p.os));
      GroupsFor(ps + [p], after);
      [OsGroup(systems[0], EntriesFor(ps + [p], systems[0]))] + GroupsFor(ps + [p], later);
      [g[0]] + AddTo(g[1..], p);
      AddTo(g, p);
    }
  }

  /** Grouping files every placement under its system: one group per system
      in order of first appearance, holding that system's entries in
      target order. */
  lemma {:induction false} GroupByOsIsReference(ps: seq<Placed>)
    ensures GroupByOs(ps) == GroupsFor(ps, OsOrder(ps))
    decreases |ps|
  {
    if |ps| > 0 {
      var init, p := ps[..|ps| - 1], ps[|ps| - 1];
      assert ps == init + [p];
      GroupByOsIsReference(init);
      OsOrderShape(init);
      AddToGroups(init, p, OsOrder(init));
    }
  }

  function AllEntries(groups: seq<OsGroup>): seq<Entry>
    decreases |groups|
  {
    if |groups| == 0 then [] else groups[0].entries + AllEntries(groups[1..])
  }

  function EntriesOf(ps: seq<Placed>): seq<Entry>
    decreases |ps|
  {
    if |ps| == 0 then [] else EntriesOf(ps[..|ps| - 1]) + [ps[|ps| - 1].entry]
  }

  lemma {:induction false} AddToAddsOne(groups: seq<OsGroup>, p: Placed)
    ensures multiset(AllEntries(AddTo(groups, p))) == multiset(AllEntries(groups)) + multiset{p.entry}
    decreases |groups|
  {
    if |groups| > 0 {
      if groups[0].os == p.os {
        assert AddTo(groups, p)[1..] == groups[1..];
      } else {
        assert AddTo(groups, p)[1..] == AddTo(groups[1..], p);
        AddToAddsOne(groups[1..], p);
      }
    }
  }

  /** No entry is lost or duplicated by the grouping: the groups hold the
      placements' entries, rearranged. */
  lemma {:induction false} GroupByOsKeepsEntries(ps: seq<Placed>)
    ensures multiset(AllEntries(GroupByOs(ps))) == multiset(EntriesOf(ps))
    ensures |AllEntries(GroupByOs(ps))| == |ps|
    decreases |ps|
  {
    if |ps| > 0 {
      GroupByOsKeepsEntries(ps[..|ps| - 1]);
      AddToAddsOne(GroupByOs(ps[..|ps| - 1]), ps[|ps| - 1]);
      assert |multiset(AllEntries(GroupByOs(ps)))| == |multiset(EntriesOf(ps))|;
    }
  }

  /** With a single system, its one group holds every entry in target order. */
  lemma {:induction false} OneSystemHoldsAll(ps: seq<Placed>)
    requires |GroupByOs(ps)| == 1
    ensures GroupByOs(ps)[0].entries == EntriesOf(ps)
  {
    GroupByOsIsReference(ps);
    OsOrderShape(ps);
    var os := OsOrder(ps)[0];
    assert GroupsFor(ps, OsOrder(ps))[0] == OsGroup(os, EntriesFor(ps, os));
    forall k | 0 <= k < |ps| ensures ps[k].os == os {
      assert ps[k].os in OsOrder(ps);
    }
    AllOnOneSystem(ps, os);
  }

  lemma {:induction false} AllOnOneSystem(ps: seq<Placed>, os: string)
    requires forall k :: 0 <= k < |ps| ==> ps[k].os == os
    ensures EntriesFor(ps, os) == EntriesOf(ps)
    decreases |ps|
  {
    if |ps| > 0 {
      var init := ps[..|ps| - 1];
      assert forall k :: 0 <= k < |init| ==> init[k] == ps[k];
      AllOnOneSystem(init, os);
    }
  }

  // ---------------------------------------------------------------------------
  // Formula lines
  // ---------------------------------------------------------------------------

  /** The `toolbox` field of a `package.json`. */
  datatype Toolbox = Toolbox(binary: Option<string>, targets: Option<seq<string>>)

  /** The fields of a tool's `package.json` that the generator reads. */
  datatype Package = Package(version: Option<string>, description: Option<string>, toolbox: Option<Toolbox>)

  /** `pkg.toolbox || {}` */
  function ToolboxOf(pkg: Package): Toolbox {
    pkg.toolbox.GetOr(Toolbox(None, None))
  }

  /** `binary && targets?.length`: a formula is written only for a package
      with a non-empty binary name and at least one target. */
  predicate Eligible(pkg: Package) {
    var tb := ToolboxOf(pkg);
    tb.binary.Some? && tb.binary.value != "" && tb.targets.Some? && |tb.targets.value| > 0
  }

  /** `${version}`: an absent version is rendered as `undefined`. */
  function VersionText(pkg: Package): string {
    pkg.version.GetOr("undefined")
  }

  /** `pkg.description || `${binary} CLI tool``. */
  function DescriptionText(pkg: Package, binary: string): (d: string)
    ensures pkg.description.Some? && pkg.description.value != "" ==> d == pkg.description.value
    ensures pkg.description.None? || pkg.description.value == "" ==> d == binary + " CLI tool"
  {
    if pkg.description.Some? && pkg.description.value != "" then pkg.description.value else binary + " CLI tool"
  }

  /** The `depends_on` lines of the tools that need them. */
  function ExtraDeps(binary: string): seq<string> {
    if binary == "voice-memos" then ["depends_on :macos"]
    else if binary == "transcribe-audio" then ["depends_on \"ffmpeg\"", "depends_on \"whisper-cpp\""]
    else []
  }

  function Header(className: string, desc: string, version: string): seq<string> {
    [ "class " + className + " < Formula",
      "  desc \"" + desc + "\"",
      "  homepage \"https://github.com/aliou/toolbox\"",
      "  version \"" + version + "\"",
      "  license \"MIT\"",
      "" ]
  }

  function Indented(deps: seq<string>): (r: seq<string>)
    ensures |r| == |deps| && forall k :: 0 <= k < |deps| ==> r[k] == "  " + deps[k]
    decreases |deps|
  {
    if |deps| == 0 then [] else ["  " + deps[0]] + Indented(deps[1..])
  }

  function DependencyLines(binary: string): seq<string> {
    Indented(ExtraDeps(binary)) + [""]
  }

  /** The five lines of one download block. */
  function ArchBlock(indent: string, binary: string, version: string, e: Entry): seq<string> {
    [ indent + "on_" + e.arch + " do",
      indent + "  url \"https://github.com/aliou/toolbox/releases/download/" + binary + "@" + version + "/"
        + DistFile(binary, e.target) + "\", using: :nounzip",
      indent + "  sha256 \"" + e.hash + "\"",
      indent + "end",
      "" ]
  }

  function ArchBlocks(indent: string, binary: string, version: string, es: seq<Entry>): (r: seq<string>)
    ensures |r| == 5 * |es|
    decreases |es|
  {
    if |es| == 0 then [] else ArchBlock(indent, binary, version, es[0]) + ArchBlocks(indent, binary, version, es[1..])
  }

  /** An `on_<os>` wrapper: its two delimiting lines, the blank line, and
      five lines per entry. */
  function SectionLength(g: OsGroup): nat {
    3 + 5 * |g.entries|
  }

  /** The `on_<os>` wrapper used when there is more than one system. */
  function OsSection(binary: string, version: string, g: OsGroup): (r: seq<string>)
    ensures |r| == SectionLength(g)
  {
    ["  on_" + g.os + " do"] + ArchBlocks("    ", binary, version, g.entries) + ["  end", ""]
  }

  /** The wrapper of each system, in group order. */
  function Sections(binary: string, version: string, gs: seq<OsGroup>): (r: seq<seq<string>>)
    ensures |r| == |gs|
  {
    seq(|gs|, j requires 0 <= j < |gs| => OsSection(binary, version, gs[j]))
  }

  function OsSections(binary: string, version: string, gs: seq<OsGroup>): seq<string> {
    Concat(Sections(binary, version, gs))
  }

  /** A single system's blocks sit directly in the class; several systems
      each get a wrapper. */
  function Body(binary: string, version: string, groups: seq<OsGroup>): seq<string> {
    if |groups| == 1 then ArchBlocks("  ", binary, version, groups[0].entries)
    else OsSections(binary, version, groups)
  }

  function Footer(binary: string): seq<string> {
    [ "  def install",
      "    bin.install Dir[\"*\"].first => \"" + binary + "\"",
      "  end",
      "",
      "  test do",
      "    assert_match version.to_s, shell_output(\"#{bin}/" + binary + " --version\")",
      "  end",
      "end",
      "" ]
  }

  function FormulaLines(className: string, binary: string, version: string, desc: string,
                        groups: seq<OsGroup>): seq<string> {
    Header(className, desc, version) + DependencyLines(binary) + Body(binary, version, groups) + Footer(binary)
  }

  /** What happens to one tool package. */
  datatype FormulaOutcome =
    | Skipped
    | Rendered(binary: string, lines: seq<string>)
      /** The class name cannot be formed and the generator throws. */
    | Crashed

  function GroupsOf(pkg: Package, digests: map<string, string>): seq<OsGroup>
    requires Eligible(pkg)
  {
    var tb := ToolboxOf(pkg);
    GroupByOs(Placements(tb.binary.value, tb.targets.value, digests))
  }

  /** One iteration of the generator's loop over tool packages. */
  function RenderFormula(pkg: Package, digests: map<string, string>): (r: FormulaOutcome)
    ensures r.Skipped? <==> !Eligible(pkg)
    ensures r.Crashed? <==> Eligible(pkg) && ToPascalCase(ToolboxOf(pkg).binary.value).None?
    ensures r.Rendered? ==> r.binary == ToolboxOf(pkg).binary.value
  {
    if !Eligible(pkg) then Skipped
    else
      var binary := ToolboxOf(pkg).binary.value;
      match ToPascalCase(binary)
      case None => Crashed
      case Some(className) =>
        Rendered(binary, FormulaLines(className, binary, VersionText(pkg), DescriptionText(pkg, binary),
                                      GroupsOf(pkg, digests)))
  }

  lemma {:induction false} ArchBlocksAt(indent: string, binary: string, version: string, es: seq<Entry>, k: nat)
    requires k < |es|
    ensures ArchBlocks(indent, binary, version, es)[5 * k .. 5 * k + 5] == ArchBlock(indent, binary, version, es[k])
    decreases k
  {
    var whole := ArchBlocks(indent, binary, version, es);
    var first := ArchBlock(indent, binary, version, es[0]);
    var rest := ArchBlocks(indent, binary, version, es[1..]);
    if k == 0 {
      SliceFront(whole, first, rest, 5);
    } else {
      ArchBlocksAt(indent, binary, version, es[1..], k - 1);
      assert es[1..][k - 1] == es[k];
      SliceAfter(whole, first, rest, 5 * (k - 1), ArchBlock(indent, binary, version, es[k]), 5 * k, 5);
    }
  }

  /** A piece at `start` of the second part of `whole == first + rest`
      sits at `at == |first| + start` in the whole. */
  lemma SliceAfter<T>(whole: seq<T>, first: seq<T>, rest: seq<T>, start: nat, piece: seq<T>, at: nat, len: nat)
    requires whole == first + rest && at == |first| + start && len == |piece|
    requires start + len <= |rest| && rest[start .. start + len] == piece
    ensures at + len <= |whole| && whole[at .. at + len] == piece
  {
    assert whole[at .. at + len] == rest[start .. start + len];
  }

  /** The first part of `whole == first + rest` is its prefix. */
  lemma SliceFront<T>(whole: seq<T>, first: seq<T>, rest: seq<T>, len: nat)
    requires whole == first + rest && len == |first|
    ensures len <= |whole| && whole[0 .. len] == first
  {
  }

  /** Where section `j` starts: the lengths of the sections before it. */
  function SectionOffset(binary: string, version: string, gs: seq<OsGroup>, j: nat): nat
    requires j <= |gs|
  {
    |Concat(Sections(binary, version, gs)[..j])|
  }

  lemma OsSectionsAt(binary: string, version: string, gs: seq<OsGroup>, j: nat)
    requires j < |gs|
    ensures SectionOffset(binary, version, gs, j) + SectionLength(gs[j]) <= |OsSections(binary, version, gs)|
    ensures OsSections(binary, version, gs)[SectionOffset(binary, version, gs, j) .. SectionOffset(binary, version, gs, j) + SectionLength(gs[j])]
         == OsSection(binary, version, gs[j])
  {
    ConcatAt(Sections(binary, version, gs), j);
  }

  /** The total length of the sections of `gs`. */
  lemma {:induction false} ConcatSectionsLength(binary: string, version: string, gs: seq<OsGroup>)
    ensures |OsSections(binary, version, gs)| == 3 * |gs| + 5 * |AllEntries(gs)|
    decreases |gs|
  {
    if |gs| > 0 {
      assert Sections(binary, version, gs)[1..] == Sections(binary, version, gs[1..]);
      ConcatSectionsLength(binary, version, gs[1..]);
    }
  }

  lemma BodyLength(binary: string, version: string, gs: seq<OsGroup>)
    ensures |Body(binary, version, gs)| == 5 * |AllEntries(gs)| + (if |gs| == 1 then 0 else 3 * |gs|)
  {
    ConcatSectionsLength(binary, version, gs);
    if |gs| == 1 {
      assert AllEntries(gs) == gs[0].entries + AllEntries(gs[1..]);
    }
  }

  lemma LinesByPart(h: seq<string>, d: seq<string>, b: seq<string>, f: seq<string>)
    ensures |h + d + b + f| == |h| + |d| + |b| + |f|
    ensures (h + d + b + f)[..|h|] == h
    ensures (h + d + b + f)[|h| .. |h| + |d|] == d
    ensures (h + d + b + f)[|h| + |d| .. |h| + |d| + |b|] == b
    ensures (h + d + b + f)[|h| + |d| + |b| ..] == f
  {
  }

  /** The parts of the formula text, at their offsets. */
  lemma FormulaParts(className: string, binary: string, version: string, desc: string, gs: seq<OsGroup>)
    ensures var lines := FormulaLines(className, binary, version, desc, gs);
            var n := |ExtraDeps(binary)|;
            var b := Body(binary, version, gs);
            && |lines| == 16 + n + |b|
            && lines[..6] == Header(className, desc, version)
            && lines[6 .. 7 + n] == DependencyLines(binary)
            && lines[7 + n .. 7 + n + |b|] == b
            && lines[7 + n + |b| ..] == Footer(binary)
  {
    LinesByPart(Header(className, desc, version), DependencyLines(binary), Body(binary, version, gs), Footer(binary));
  }

  /** The body follows the six header lines, the dependency lines and the
      blank line after them. */
  function BodyStart(binary: string): nat {
    7 + |ExtraDeps(binary)|
  }

  /** Where the body sits in the formula text. */
  lemma BodyInLines(className: string, binary: string, version: string, desc: string, gs: seq<OsGroup>)
    ensures var lines := FormulaLines(className, binary, version, desc, gs);
            var b := Body(binary, version, gs);
            var start := BodyStart(binary);
            start + |b| <= |lines| && lines[start .. start + |b|] == b
  {
    FormulaParts(className, binary, version, desc, gs);
  }

  /** The text written for an eligible package with a class name. */
  lemma RenderedText(pkg: Package, digests: map<string, string>, binary: string, lines: seq<string>)
    requires RenderFormula(pkg, digests) == Rendered(binary, lines)
    ensures Eligible(pkg) && binary == ToolboxOf(pkg).binary.value && ToPascalCase(binary).Some?
    ensures lines == FormulaLines(ToPascalCase(binary).value, binary, VersionText(pkg), DescriptionText(pkg, binary),
                                  GroupsOf(pkg, digests))
  {
  }

  /** The layout of a written formula: class line, description (defaulted),
      version, the extra dependencies, five lines per supported target plus
      three per system wrapper, and the fixed install and test footer. */
  lemma FormulaLayout(pkg: Package, digests: map<string, string>, binary: string, lines: seq<string>)
    requires RenderFormula(pkg, digests) == Rendered(binary, lines)
    ensures var deps := ExtraDeps(binary);
            var gs := GroupsOf(pkg, digests);
            && |lines| == 16 + |deps| + 5 * SupportedCount(ToolboxOf(pkg).targets.value) + (if |gs| == 1 then 0 else 3 * |gs|)
            && lines[..6] == Header(ToPascalCase(binary).value, DescriptionText(pkg, binary), VersionText(pkg))
            && lines[6 .. 7 + |deps|] == Indented(deps) + [""]
            && lines[|lines| - 9..] == Footer(binary)
  {
    RenderedText(pkg, digests, binary, lines);
    var gs := GroupsOf(pkg, digests);
    GroupByOsKeepsEntries(Placements(binary, ToolboxOf(pkg).targets.value, digests));
    BodyLength(binary, VersionText(pkg), gs);
    FormulaParts(ToPascalCase(binary).value, binary, VersionText(pkg), DescriptionText(pkg, binary), gs);
  }

  /** The second line of a formula gives the package description, or
      `<binary> CLI tool` when it is missing or empty. */
  lemma DescriptionLine(pkg: Package, digests: map<string, string>, binary: string, lines: seq<string>)
    requires RenderFormula(pkg, digests) == Rendered(binary, lines)
    ensures |lines| > 1
    ensures pkg.description.Some? && pkg.description.value != "" ==>
              lines[1] == "  desc \"" + pkg.description.value + "\""
    ensures pkg.description.None? || pkg.description.value == "" ==>
              lines[1] == "  desc \"" + binary + " CLI tool" + "\""
  {
    FormulaLayout(pkg, digests, binary, lines);
    assert lines[1] == lines[..6][1];
  }

  /** With one system, block `k` of the formula is the download block of
      the `k`-th placement. */
  lemma BlockOfPlacement(className: string, binary: string, version: string, desc: string,
                         ps: seq<Placed>, lines: seq<string>, k: nat)
    requires lines == FormulaLines(className, binary, version, desc, GroupByOs(ps))
    requires |GroupByOs(ps)| == 1 && k < |ps|
    ensures BodyStart(binary) + 5 * k + 5 <= |lines|
    ensures lines[BodyStart(binary) + 5 * k .. BodyStart(binary) + 5 * k + 5]
         == ArchBlock("  ", binary, version, ps[k].entry)
  {
    SingleGroupEntry(ps, k);
    BodyInLines(className, binary, version, desc, GroupByOs(ps));
    BlockInLines(lines, BodyStart(binary), binary, version, GroupByOs(ps), k, ps[k].entry);
    assert lines[BodyStart(binary) + 5 * k .. BodyStart(binary) + 5 * k + 5] == ArchBlock("  ", binary, version, ps[k].entry);
  }

  /** With several systems (or none), section `j` of the formula is the
      wrapper of the `j`-th group. */
  lemma SectionOfGroup(className: string, binary: string, version: string, desc: string,
                       gs: seq<OsGroup>, lines: seq<string>, j: nat, at: nat, len: nat)
    requires lines == FormulaLines(className, binary, version, desc, gs)
    requires |gs| != 1 && j < |gs|
    requires at == BodyStart(binary) + SectionOffset(binary, version, gs, j) && len == SectionLength(gs[j])
    ensures at + len <= |lines| && lines[at .. at + len] == OsSection(binary, version, gs[j])
  {
    var parts := Sections(binary, version, gs);
    BodyInLines(className, binary, version, desc, gs);
    assert Body(binary, version, gs) == Concat(parts);
    PartInSlice(lines, BodyStart(binary), parts, j, OsSection(binary, version, gs[j]), at, len);
  }

  /** With one system, block `k` of a body placed at `offset` is the
      download block of the `k`-th entry. */
  lemma BlockInLines(lines: seq<string>, offset: nat, binary: string, version: string, gs: seq<OsGroup>, k: nat, e: Entry)
    requires |gs| == 1 && k < |gs[0].entries| && gs[0].entries[k] == e
    requires var b := Body(binary, version, gs); offset + |b| <= |lines| && lines[offset .. offset + |b|] == b
    ensures offset + 5 * k + 5 <= |lines|
    ensures lines[offset + 5 * k .. offset + 5 * k + 5] == ArchBlock("  ", binary, version, e)
  {
    ArchBlocksAt("  ", binary, version, gs[0].entries, k);
    SliceWithin(lines, offset, Body(binary, version, gs), 5 * k, ArchBlock("  ", binary, version, e), offset + 5 * k, 5);
  }

  lemma SingleGroupEntry(ps: seq<Placed>, k: nat)
    requires |GroupByOs(ps)| == 1 && k < |ps|
    ensures k < |GroupByOs(ps)[0].entries| && GroupByOs(ps)[0].entries[k] == ps[k].entry
  {
    OneSystemHoldsAll(ps);
    EntriesOfAt(ps, k);
  }

  /** With one system, block `k` of the body is the download block of the
      `k`-th supported target, carrying its digest or the placeholder. */
  lemma SingleSystemBlock(pkg: Package, digests: map<string, string>, binary: string, lines: seq<string>, k: nat)
    requires RenderFormula(pkg, digests) == Rendered(binary, lines)
    requires |GroupsOf(pkg, digests)| == 1
    requires k < SupportedCount(ToolboxOf(pkg).targets.value)
    ensures var p := Placements(binary, ToolboxOf(pkg).targets.value, digests)[k];
            var start := BodyStart(binary) + 5 * k;
            && start + 5 <= |lines|
            && lines[start .. start + 5] == ArchBlock("  ", binary, VersionText(pkg), p.entry)
            && p.entry.hash == HashOf(binary, p.entry.target, digests)
  {
    RenderedText(pkg, digests, binary, lines);
    var ps := Placements(binary, ToolboxOf(pkg).targets.value, digests);
    BlockOfPlacement(ToPascalCase(binary).value, binary, VersionText(pkg), DescriptionText(pkg, binary), ps, lines, k);
    assert lines[BodyStart(binary) + 5 * k .. BodyStart(binary) + 5 * k + 5] == ArchBlock("  ", binary, VersionText(pkg), ps[k].entry);
  }

  /** With one system, the `sha256` line of block `k` carries the digest of
      that target's binary, or `PLACEHOLDER` when it could not be read. */
  lemma SingleSystemDigestLine(pkg: Package, digests: map<string, string>, binary: string, lines: seq<string>, k: nat)
    requires RenderFormula(pkg, digests) == Rendered(binary, lines)
    requires |GroupsOf(pkg, digests)| == 1
    requires k < SupportedCount(ToolboxOf(pkg).targets.value)
    ensures var t := Placements(binary, ToolboxOf(pkg).targets.value, digests)[k].entry.target;
            var line := BodyStart(binary) + 5 * k + 2;
            && line < |lines|
            && (binary + "-" + t in digests ==> lines[line] == "    " + "sha256 \"" + digests[binary + "-" + t] + "\"")
            && (binary + "-" + t !in digests ==> lines[line] == "    " + "sha256 \"" + "PLACEHOLDER" + "\"")
  {
    SingleSystemBlock(pkg, digests, binary, lines, k);
    var start := BodyStart(binary) + 5 * k;
    var e := Placements(binary, ToolboxOf(pkg).targets.value, digests)[k].entry;
    assert lines[start + 2] == lines[start .. start + 5][2];
    BlockShaLine("  ", "    ", binary, VersionText(pkg), e);
  }

  /** Element `m` of a slice is element `at + m` of the whole. */
  lemma SliceElement<T>(s: seq<T>, at: nat, len: nat, piece: seq<T>, m: nat)
    requires at + len <= |s| && s[at .. at + len] == piece && m < len
    ensures s[at + m] == piece[m]
  {
  }

  /** Line 2 of a download block is its `sha256` line. */
  lemma BlockShaLine(indent: string, full: string, binary: string, version: string, e: Entry)
    requires full == indent + "  "
    ensures ArchBlock(indent, binary, version, e)[2] == full + "sha256 \"" + e.hash + "\""
  {
    ShaLine(indent, full, e.hash);
  }

  /** The `sha256` line of a block written at `indent`, spelled with the
      indentation folded in. */
  lemma ShaLine(indent: string, full: string, hash: string)
    requires full == indent + "  "
    ensures indent + "  sha256 \"" + hash + "\"" == full + "sha256 \"" + hash + "\""
  {
  }

  /** Part `j` of a concatenation placed at `offset`. */
  lemma PartInSlice<T>(s: seq<T>, offset: nat, parts: seq<seq<T>>, j: nat, piece: seq<T>, at: nat, len: nat)
    requires j < |parts| && piece == parts[j] && at == offset + |Concat(parts[..j])| && len == |piece|
    requires offset + |Concat(parts)| <= |s| && s[offset .. offset + |Concat(parts)|] == Concat(parts)
    ensures at + len <= |s| && s[at .. at + len] == piece
  {
    ConcatAt(parts, j);
    SliceWithin(s, offset, Concat(parts), |Concat(parts[..j])|, piece, at, len);
  }

  /** A piece of a slice is a piece of the whole. */
  lemma SliceWithin<T>(s: seq<T>, offset: nat, part: seq<T>, i: nat, piece: seq<T>, at: nat, len: nat)
    requires at == offset + i && len == |piece|
    requires offset + |part| <= |s| && s[offset .. offset + |part|] == part
    requires i + len <= |part| && part[i .. i + len] == piece
    ensures at + len <= |s| && s[at .. at + len] == piece
  {
    forall m | 0 <= m < len
      ensures s[at .. at + len][m] == piece[m]
    {
      assert piece[m] == part[i + m];
    }
  }

  lemma {:induction false} EntriesOfAt(ps: seq<Placed>, k: nat)
    requires k < |ps|
    ensures |EntriesOf(ps)| == |ps| && EntriesOf(ps)[k] == ps[k].entry
    decreases |ps|
  {
    var init := ps[..|ps| - 1];
    if k < |init| {
      EntriesOfAt(init, k);
    } else if |init| > 0 {
      EntriesOfAt(init, 0);
    }
  }

  /** With several systems (or none), section `j` is the wrapper for the
      `j`-th system in order of first appearance, holding that system's
      entries in target order. */
  lemma MultiSystemSection(pkg: Package, digests: map<string, string>, binary: string, lines: seq<string>,
                            j: nat, at: nat, len: nat)
    requires RenderFormula(pkg, digests) == Rendered(binary, lines)
    requires |GroupsOf(pkg, digests)| != 1 && j < |GroupsOf(pkg, digests)|
    requires at == BodyStart(binary) + SectionOffset(binary, VersionText(pkg), GroupsOf(pkg, digests), j)
    requires len == SectionLength(GroupsOf(pkg, digests)[j])
    ensures at + len <= |lines| && lines[at .. at + len] == OsSection(binary, VersionText(pkg), GroupsOf(pkg, digests)[j])
    ensures var ps := Placements(binary, ToolboxOf(pkg).targets.value, digests);
            && j < |OsOrder(ps)|
            && GroupsOf(pkg, digests)[j] == OsGroup(OsOrder(ps)[j], EntriesFor(ps, OsOrder(ps)[j]))
  {
    RenderedText(pkg, digests, binary, lines);
    var ps := Placements(binary, ToolboxOf(pkg).targets.value, digests);
    var gs := GroupsOf(pkg, digests);
    GroupInOrder(ps, gs, j);
    SectionOfGroup(ToPascalCase(binary).value, binary, VersionText(pkg), DescriptionText(pkg, binary), gs, lines, j, at, len);
  }

  /** Every entry filed under a system comes from a placement on that system. */
  lemma {:induction false} EntryOfSystem(ps: seq<Placed>, os: string, m: nat) returns (i: nat)
    requires m < |EntriesFor(ps, os)|
    ensures i < |ps| && ps[i].os == os && ps[i].entry == EntriesFor(ps, os)[m]
    decreases |ps|
  {
    var init := ps[..|ps| - 1];
    if m < |EntriesFor(init, os)| {
      i := EntryOfSystem(init, os, m);
    } else {
      i := |ps| - 1;
    }
  }

  /** With several systems, the `sha256` line of block `m` in section `j`
      carries the digest of that entry's binary, or `PLACEHOLDER`; the entry
      is one of the package's targets. */
  lemma MultiSystemDigestLine(pkg: Package, digests: map<string, string>, binary: string, lines: seq<string>,
                              j: nat, at: nat, len: nat, m: nat)
    requires RenderFormula(pkg, digests) == Rendered(binary, lines)
    requires |GroupsOf(pkg, digests)| != 1 && j < |GroupsOf(pkg, digests)|
    requires at == BodyStart(binary) + SectionOffset(binary, VersionText(pkg), GroupsOf(pkg, digests), j)
    requires len == SectionLength(GroupsOf(pkg, digests)[j])
    requires m < |GroupsOf(pkg, digests)[j].entries|
    ensures var t := GroupsOf(pkg, digests)[j].entries[m].target;
            && t in ToolboxOf(pkg).targets.value
            && at + 5 * m + 3 < |lines|
            && (binary + "-" + t in digests ==> lines[at + 5 * m + 3] == "      " + "sha256 \"" + digests[binary + "-" + t] + "\"")
            && (binary + "-" + t !in digests ==> lines[at + 5 * m + 3] == "      " + "sha256 \"" + "PLACEHOLDER" + "\"")
  {
    var gs := GroupsOf(pkg, digests);
    var e := gs[j].entries[m];
    MultiSystemSection(pkg, digests, binary, lines, j, at, len);
    var ps := Placements(binary, ToolboxOf(pkg).targets.value, digests);
    var i := EntryOfSystem(ps, OsOrder(ps)[j], m);
    assert e.hash == HashOf(binary, e.target, digests);
    SectionShaLine(binary, VersionText(pkg), gs[j], m);
    SliceElement(lines, at, len, OsSection(binary, VersionText(pkg), gs[j]), 5 * m + 3);
  }

  /** Line `5 * m + 3` of a system wrapper is the `sha256` line of its `m`-th entry. */
  lemma SectionShaLine(binary: string, version: string, g: OsGroup, m: nat)
    requires m < |g.entries|
    ensures 5 * m + 3 < |OsSection(binary, version, g)|
    ensures OsSection(binary, version, g)[5 * m + 3] == "      " + "sha256 \"" + g.entries[m].hash + "\""
  {
    ArchBlocksAt("    ", binary, version, g.entries, m);
    var blocks := ArchBlocks("    ", binary, version, g.entries);
    assert OsSection(binary, version, g)[1 + 5 * m + 2] == blocks[5 * m + 2];
    SliceElement(blocks, 5 * m, 5, ArchBlock("    ", binary, version, g.entries[m]), 2);
    BlockShaLine("    ", "      ", binary, version, g.entries[m]);
  }

  lemma GroupInOrder(ps: seq<Placed>, gs: seq<OsGroup>, j: nat)
    requires gs == GroupByOs(ps) && j < |gs|
    ensures j < |OsOrder(ps)| && gs[j] == OsGroup(OsOrder(ps)[j], EntriesFor(ps, OsOrder(ps)[j]))
  {
    GroupByOsIsReference(ps);
  }
}
