/**
  The Nix hash manifest update: for every tool directory with a usable
  `toolbox` field, the manifest entry under the tool's binary name is
  replaced by the package version and the SRI hashes of the binaries that
  exist in `dist/`, keyed by Nix system. Every other entry of the existing
  manifest is kept as it was.
*/
module NixHashes {
  import opened Results
  import opened HomebrewFormula

  // ---------------------------------------------------------------------------
  // Target table
  // ---------------------------------------------------------------------------

  /** The build target to Nix system table; other targets are unknown. */
  function NixSystemOf(target: string): Option<string> {
    if target == "darwin-arm64" then Some("aarch64-darwin")
    else if target == "darwin-x64" then Some("x86_64-darwin")
    else if target == "linux-arm64" then Some("aarch64-linux")
    else if target == "linux-x64" then Some("x86_64-linux")
    else None
  }

  /** The table read backwards. */
  function TargetOfSystem(system: string): Option<string> {
    if system == "aarch64-darwin" then Some("darwin-arm64")
    else if system == "x86_64-darwin" then Some("darwin-x64")
    else if system == "aarch64-linux" then Some("linux-arm64")
    else if system == "x86_64-linux" then Some("linux-x64")
    else None
  }

  /** The table is one-to-one: each Nix system comes from exactly one target. */
  lemma NixTableInverse(target: string, system: string)
    ensures NixSystemOf(target) == Some(system) <==> TargetOfSystem(system) == Some(target)
  {
  }

  // ---------------------------------------------------------------------------
  // Per-tool hashes
  // ---------------------------------------------------------------------------

  const SriPrefix := "sha256-"

  /** `sha256-<base64 digest>`; the digest itself is computed outside the model. */
  function Sri(digest: string): (h: string)
    ensures |h| == |SriPrefix| + |digest| && h[..|SriPrefix|] == SriPrefix && h[|SriPrefix|..] == digest
  {
    SriPrefix + digest
  }

  /** `join("dist", `${binary}-${target}`)` */
  function BinaryPath(binary: string, target: string): string {
    "dist/" + binary + "-" + target
  }

  /** A target contributes a hash when it is known and its binary was built.
      `dist` maps each existing file to the base64 SHA-256 of its contents. */
  predicate Hashed(binary: string, target: string, dist: map<string, string>) {
    NixSystemOf(target).Some? && BinaryPath(binary, target) in dist
  }

  /** The `toolHashes` object built by the loop over targets. */
  function ToolHashes(binary: string, targets: seq<string>, dist: map<string, string>): map<string, string>
    decreases |targets|
  {
    if |targets| == 0 then map[]
    else
      var hashes := ToolHashes(binary, targets[..|targets| - 1], dist);
      var target := targets[|targets| - 1];
      if Hashed(binary, target, dist) then
        hashes[NixSystemOf(target).value := Sri(dist[BinaryPath(binary, target)])]
      else hashes
  }

  /** A Nix system has a hash exactly when one of the targets maps to it and
      that target's binary exists; the hash is the SRI form of that binary's
      digest, whatever the order or repetition of the targets. */
  lemma {:induction false} ToolHashesContents(binary: string, targets: seq<string>, dist: map<string, string>)
    ensures forall system :: system in ToolHashes(binary, targets, dist)
              <==> exists t :: t in targets && Hashed(binary, t, dist) && NixSystemOf(t) == Some(system)
    ensures forall system :: system in ToolHashes(binary, targets, dist) ==>
              && TargetOfSystem(system).Some?
              && ToolHashes(binary, targets, dist)[system] == Sri(dist[BinaryPath(binary, TargetOfSystem(system).value)])
    decreases |targets|
  {
    if |targets| > 0 {
      var init := targets[..|targets| - 1];
      var target := targets[|targets| - 1];
      ToolHashesContents(binary, init, dist);
      assert targets == init + [target];
      if Hashed(binary, target, dist) {
        NixTableInverse(target, NixSystemOf(target).value);
      }
      forall system | system in ToolHashes(binary, targets, dist)
        ensures TargetOfSystem(system).Some?
        ensures ToolHashes(binary, targets, dist)[system] == Sri(dist[BinaryPath(binary, TargetOfSystem(system).value)])
      {
        if system in ToolHashes(binary, init, dist) {
          var t :| t in init && Hashed(binary, t, dist) && NixSystemOf(t) == Some(system);
          NixTableInverse(t, system);
        }
      }
    }
  }

  /** Every stored hash is an SRI string: `sha256-` followed by the base64 digest
      of the binary built for that system. */
  lemma ToolHashesAreSri(binary: string, targets: seq<string>, dist: map<string, string>)
    ensures forall system :: system in ToolHashes(binary, targets, dist) ==>
              && TargetOfSystem(system).Some?
              && BinaryPath(binary, TargetOfSystem(system).value) in dist
              && |ToolHashes(binary, targets, dist)[system]| >= 7
              && ToolHashes(binary, targets, dist)[system][..7] == "sha256-"
              && ToolHashes(binary, targets, dist)[system][7..] == dist[BinaryPath(binary, TargetOfSystem(system).value)]
  {
    ToolHashesContents(binary, targets, dist);
    forall system | system in ToolHashes(binary, targets, dist)
      ensures BinaryPath(binary, TargetOfSystem(system).value) in dist
    {
      var t :| t in targets && Hashed(binary, t, dist) && NixSystemOf(t) == Some(system);
      NixTableInverse(t, system);
    }
  }

  // ---------------------------------------------------------------------------
  // Manifest
  // ---------------------------------------------------------------------------

  /** One manifest entry; an absent version is dropped when serialised. */
  datatype ToolEntry = ToolEntry(version: Option<string>, hashes: map<string, string>)

  /** `nix/hashes.json`, keyed by binary name. */
  type Manifest = map<string, ToolEntry>

  /** One entry of `tools/`. */
  datatype ToolsEntry = ToolsEntry(name: string, isDirectory: bool, pkg: Option<Package>)

  /** `!binary || !targets`: unlike the tap generator, an empty target list
      is processed and gives an entry with no hashes. */
  predicate Usable(e: ToolsEntry) {
    && e.isDirectory
    && e.pkg.Some?
    && var tb := ToolboxOf(e.pkg.value);
    && tb.binary.Some? && tb.binary.value != "" && tb.targets.Some?
  }

  /** The key and entry a directory writes, if any. */
  function Contribution(e: ToolsEntry, dist: map<string, string>): (r: Option<(string, ToolEntry)>)
    ensures r.Some? <==> Usable(e)
    ensures r.Some? ==> r.value.0 == ToolboxOf(e.pkg.value).binary.value && r.value.1.version == e.pkg.value.version
  {
    if !Usable(e) then None
    else
      var tb := ToolboxOf(e.pkg.value);
      Some((tb.binary.value, ToolEntry(e.pkg.value.version, ToolHashes(tb.binary.value, tb.targets.value, dist))))
  }

  predicate WritesKey(e: ToolsEntry, dist: map<string, string>, key: string) {
    Contribution(e, dist).Some? && Contribution(e, dist).value.0 == key
  }

  /** The loop over the tool directories, in listing order. */
  function Merge(base: Manifest, entries: seq<ToolsEntry>, dist: map<string, string>): Manifest
    decreases |entries|
  {
    if |entries| == 0 then base
    else
      var m := Merge(base, entries[..|entries| - 1], dist);
      match Contribution(entries[|entries| - 1], dist)
      case None => m
      case Some((key, entry)) => m[key := entry]
  }

  /** The whole script: a missing manifest starts empty. */
  function UpdateHashes(existing: Option<Manifest>, entries: seq<ToolsEntry>, dist: map<string, string>): Manifest {
    Merge(existing.GetOr(map[]), entries, dist)
  }

  /** Keys no directory writes keep their old entry, present or absent. */
  lemma {:induction false} MergeUntouched(base: Manifest, entries: seq<ToolsEntry>, dist: map<string, string>, key: string)
    requires forall i :: 0 <= i < |entries| ==> !WritesKey(entries[i], dist, key)
    ensures key in Merge(base, entries, dist) <==> key in base
    ensures key in base ==> Merge(base, entries, dist)[key] == base[key]
    decreases |entries|
  {
    if |entries| > 0 {
      var init := entries[..|entries| - 1];
      assert forall i :: 0 <= i < |init| ==> init[i] == entries[i];
      MergeUntouched(base, init, dist, key);
      assert !WritesKey(entries[|entries| - 1], dist, key);
    }
  }

  /** The last directory that writes a key decides its entry outright: the
      old entry's hashes are not merged in. */
  lemma {:induction false} MergeLastWins(base: Manifest, entries: seq<ToolsEntry>, dist: map<string, string>,
                                         key: string, i: nat)
    requires i < |entries| && WritesKey(entries[i], dist, key)
    requires forall j :: i < j < |entries| ==> !WritesKey(entries[j], dist, key)
    ensures key in Merge(base, entries, dist)
    ensures Merge(base, entries, dist)[key] == Contribution(entries[i], dist).value.1
    decreases |entries|
  {
    var init := entries[..|entries| - 1];
    var last := entries[|entries| - 1];
    if i < |entries| - 1 {
      assert forall j :: i < j < |init| ==> init[j] == entries[j];
      MergeLastWins(base, init, dist, key, i);
      assert !WritesKey(last, dist, key);
    } else {
      assert Contribution(last, dist).Some?;
    }
  }

  /** The manifest's keys after the run: the old ones and every written one. */
  lemma {:induction false} MergeKeys(base: Manifest, entries: seq<ToolsEntry>, dist: map<string, string>, key: string)
    ensures key in Merge(base, entries, dist)
        <==> key in base || exists i :: 0 <= i < |entries| && WritesKey(entries[i], dist, key)
    decreases |entries|
  {
    if |entries| > 0 {
      var init := entries[..|entries| - 1];
      MergeKeys(base, init, dist, key);
      if exists i :: 0 <= i < |init| && WritesKey(init[i], dist, key) {
        var i :| 0 <= i < |init| && WritesKey(init[i], dist, key);
        assert entries[i] == init[i];
      }
      if exists i :: 0 <= i < |entries| && WritesKey(entries[i], dist, key) {
        var i :| 0 <= i < |entries| && WritesKey(entries[i], dist, key);
        if i < |init| {
          assert init[i] == entries[i];
        }
      }
    }
  }

  /** Without an existing manifest, the result holds only written keys. */
  lemma FreshManifest(entries: seq<ToolsEntry>, dist: map<string, string>, key: string)
    ensures key in UpdateHashes(None, entries, dist)
        <==> exists i :: 0 <= i < |entries| && WritesKey(entries[i], dist, key)
  {
    MergeKeys(map[], entries, dist, key);
  }
}
