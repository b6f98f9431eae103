/** Committing a staged whisper.cpp installation over an existing one, or putting everything back. */
module Install {
  import opened Wrappers

  type Bytes = string

  /** Managed files have plain names; temporary siblings are told apart by their process-wide nonce. */
  datatype Name = Plain(text: string) | Temporary(nonce: nat)

  type Files = map<Name, Bytes>

  const INSTALL_MANIFEST := Plain("install-manifest.json")

  /** The components of a path, without empty ones and the current directory. */
  function Components(path: string): seq<string> {
    if path == "" then []
    else
      var n := Separator(path);
      var first := if path[..n] == "" || path[..n] == "." then [] else [path[..n]];
      first + if n == |path| then [] else Components(path[n + 1..])
  }

  /** Where the first separator is, or the end of the path. */
  function Separator(path: string): (n: nat)
    ensures n <= |path| && '/' !in path[..n] && (n < |path| ==> path[n] == '/')
  {
    if path == "" || path[0] == '/' then 0
    else
      assert path[..Separator(path[1..]) + 1] == [path[0]] + path[1..][..Separator(path[1..])];
      Separator(path[1..]) + 1
  }

  /** The last component, unless it is the parent directory. */
  function FileName(path: string): Option<string> {
    var c := Components(path);
    if c == [] || c[|c| - 1] == ".." then None else Some(c[|c| - 1])
  }

  /** A manifest name must be its own last path component. */
  predicate ValidFileName(text: string) {
    FileName(text) == Some(text)
  }

  lemma {:induction false} ComponentsArePlain(path: string)
    ensures forall c | c in Components(path) :: c != "" && c != "." && '/' !in c
    decreases |path|
  {
    if path != "" && Separator(path) < |path| {
      ComponentsArePlain(path[Separator(path) + 1..]);
    }
  }

  /** Names something directly in a directory. */
  predicate Direct(text: string) {
    text != "" && text != "." && text != ".." && '/' !in text
  }

  /** The accepted names are exactly those. */
  lemma AcceptedNames(text: string)
    ensures ValidFileName(text) <==> Direct(text)
  {
    ComponentsArePlain(text);
    if text != "" && '/' !in text {
      assert Separator(text) == |text| && text[..|text|] == text;
    }
  }

  /** How manifest bytes parse into a list of names. */
  type Parser = Bytes -> Option<seq<string>>

  function ReadInstallManifest(parse: Parser, files: Files): (r: Option<seq<Name>>)
    ensures r.Some? ==> forall n | n in r.value :: n.Plain? && ValidFileName(n.text)
  {
    if INSTALL_MANIFEST !in files then None
    else match parse(files[INSTALL_MANIFEST])
      case None => None
      case Some(names) =>
        if exists i | 0 <= i < |names| :: !ValidFileName(names[i]) then None
        else Some(seq(|names|, i requires 0 <= i < |names| => Plain(names[i])))
  }

  /** What a manifest's parsed names are, and that all of them name something directly in the directory. */
  predicate Lists(parse: Parser, files: Files, names: seq<string>) {
    && INSTALL_MANIFEST in files
    && parse(files[INSTALL_MANIFEST]) == Some(names)
    && forall i | 0 <= i < |names| :: Direct(names[i])
  }

  /** A manifest is read if and only if its names are all direct, and then as exactly these names, in order. */
  lemma ManifestReads(parse: Parser, files: Files)
    ensures ReadInstallManifest(parse, files).Some? <==>
            && INSTALL_MANIFEST in files && parse(files[INSTALL_MANIFEST]).Some?
            && Lists(parse, files, parse(files[INSTALL_MANIFEST]).value)
    ensures var r := ReadInstallManifest(parse, files);
            r.Some? ==>
              var names := parse(files[INSTALL_MANIFEST]).value;
              |r.value| == |names| && forall i | 0 <= i < |names| :: r.value[i] == Plain(names[i])
  {
    if INSTALL_MANIFEST in files && parse(files[INSTALL_MANIFEST]).Some? {
      var names := parse(files[INSTALL_MANIFEST]).value;
      forall i | 0 <= i < |names|
        ensures ValidFileName(names[i]) <==> Direct(names[i])
      {
        AcceptedNames(names[i]);
      }
    }
  }

  /**
   * The target directory.  Forward operations may fail by themselves unless the directory is `reliable`; clean-up
   * operations are taken to succeed.
   */
  class Directory {
    const reliable: bool
    var files: Files

    constructor (files: Files, reliable: bool)
      ensures this.files == files && this.reliable == reliable
    {
      this.files, this.reliable := files, reliable;
    }

    method Fault() returns (fault: bool)
      ensures reliable ==> !fault
    {
      fault := *;
      if reliable {
        fault := false;
      }
    }

    /** A failed copy may leave any part of the file behind. */
    method Copy(source: Option<Bytes>, to: Name) returns (ok: bool)
      modifies this
      ensures ok ==> source.Some? && files == old(files)[to := source.value]
      ensures !ok ==> source.None? || !reliable
      ensures files - {to} == old(files) - {to}
    {
      var fault := Fault();
      ok := source.Some? && !fault;
      if ok {
        files := files[to := source.value];
      } else {
        var partial: Option<Bytes> := *;
        if partial.Some? {
          files := files[to := partial.value];
        }
      }
    }

    method Rename(from: Name, to: Name) returns (ok: bool)
      requires from != to
      modifies this
      ensures ok ==> from in old(files) && files == (old(files) - {from})[to := old(files)[from]]
      ensures !ok ==> files == old(files) && (from !in files || !reliable)
    {
      var fault := Fault();
      ok := from in files && !fault;
      if ok {
        files := (files - {from})[to := files[from]];
      }
    }

    method Remove(name: Name)
      modifies this
      ensures files == old(files) - {name}
    {
      files := files - {name};
    }

    /** Put a backup back over its destination. */
    method Restore(backup: Name, to: Name)
      modifies this
      ensures files == Restored(old(files), backup, to)
    {
      files := Restored(files, backup, to);
    }
  }

  function Restored(files: Files, backup: Name, to: Name): Files {
    if backup in files then (files - {backup})[to := files[backup]] else files
  }

  /** One committed file: its destination and the backup of what it replaced. */
  datatype Committed = Committed(destination: Name, backup: Option<Name>)

  function UndoOne(files: Files, c: Committed): Files {
    if c.backup.Some? then Restored(files - {c.destination}, c.backup.value, c.destination)
    else files - {c.destination}
  }

  /** Undo the commits from the last to the first. */
  function Undo(files: Files, committed: seq<Committed>): Files
    decreases |committed|
  {
    if committed == [] then files
    else Undo(UndoOne(files, committed[|committed| - 1]), committed[..|committed| - 1])
  }

  method RollbackInstall(target: Directory, committed: seq<Committed>)
    modifies target
    ensures target.files == Undo(old(target.files), committed)
  {
    var i := |committed|;
    assert committed[..i] == committed;
    while i > 0
      invariant 0 <= i <= |committed|
      invariant Undo(target.files, committed[..i]) == Undo(old(target.files), committed)
    {
      i := i - 1;
      assert committed[..i + 1][..i] == committed[..i];
      target.Remove(committed[i].destination);
      if committed[i].backup.Some? {
        target.Restore(committed[i].backup.value, committed[i].destination);
      }
    }
  }

  // ---- Temporaries ----

  function Staging(low: nat, high: nat): set<Name> {
    set k | low <= k < high :: Temporary(k)
  }

  /** The prepared copies from index `from` to index `to`. */
  function Prepared(staged: Files, names: seq<Name>, first: nat, from: nat, to: nat): Files
    requires to <= |names| && forall i | 0 <= i < to :: names[i] in staged
  {
    map t | t in Staging(first + from, first + to) :: staged[names[t.nonce - first]]
  }

  predicate Unused(files: Files, first: nat) {
    forall n | n in files && n.Temporary? :: n.nonce < first
  }

  /** Dropping the guards of uncommitted temporaries removes them. */
  method DropTemporaries(target: Directory, low: nat, high: nat)
    requires low <= high
    modifies target
    ensures target.files == old(target.files) - Staging(low, high)
  {
    for k := low to high
      invariant target.files == old(target.files) - Staging(low, k)
    {
      target.Remove(Temporary(k));
      assert Staging(low, k + 1) == Staging(low, k) + {Temporary(k)};
    }
  }

  lemma DroppedLeavesBase(base: Files, staged: Files, names: seq<Name>, first: nat, i: nat, files: Files)
    requires Unused(base, first) && i < |names| && forall j | 0 <= j < i :: names[j] in staged
    requires files - {Temporary(first + i)} == (base + Prepared(staged, names, first, 0, i)) - {Temporary(first + i)}
    ensures files - Staging(first, first + i + 1) == base
  {
    var t, left := Temporary(first + i), files - Staging(first, first + i + 1);
    forall n ensures (n in left <==> n in base) && (n in base ==> left[n] == base[n]) {
      if n != t {
        assert n in files <==> n in files - {t};
        assert n in files ==> files[n] == (files - {t})[n];
      }
    }
  }

  lemma PreparedGrows(base: Files, staged: Files, names: seq<Name>, first: nat, i: nat)
    requires i < |names| && forall j | 0 <= j <= i :: names[j] in staged
    ensures base + Prepared(staged, names, first, 0, i + 1)
            == (base + Prepared(staged, names, first, 0, i))[Temporary(first + i) := staged[names[i]]]
  {
  }

  lemma PreparedShrinks(base: Files, staged: Files, names: seq<Name>, first: nat, i: nat)
    requires Unused(base, first) && i < |names| && forall j | 0 <= j < |names| :: names[j] in staged
    ensures (base + Prepared(staged, names, first, i, |names|)) - {Temporary(first + i)}
            == base + Prepared(staged, names, first, i + 1, |names|)
  {
  }

  /** Copy every staged file to a temporary; on failure remove what was copied. */
  method PrepareAll(staged: Files, names: seq<Name>, first: nat, target: Directory) returns (ok: bool)
    requires Unused(target.files, first)
    modifies target
    ensures ok ==> forall i | 0 <= i < |names| :: names[i] in staged
    ensures ok ==> target.files == old(target.files) + Prepared(staged, names, first, 0, |names|)
    ensures !ok ==> target.files == old(target.files)
    ensures !ok && target.reliable ==> exists i | 0 <= i < |names| :: names[i] !in staged
  {
    ghost var base := target.files;
    for i := 0 to |names|
      invariant forall j | 0 <= j < i :: names[j] in staged
      invariant target.files == base + Prepared(staged, names, first, 0, i)
    {
      var temporary := Temporary(first + i);
      ghost var before := target.files;
      var source := if names[i] in staged then Some(staged[names[i]]) else None;
      var copied := target.Copy(source, temporary);
      if !copied {
        DroppedLeavesBase(base, staged, names, first, i, target.files);
        DropTemporaries(target, first, first + i + 1);
        return false;
      }
      PreparedGrows(base, staged, names, first, i);
    }
    ok := true;
  }

  // ---- The commit ----

  /** The directory with the first `n` names holding their staged bytes. */
  function Overlay(base: Files, staged: Files, names: seq<Name>, n: nat): Files
    requires n <= |names| && forall i | 0 <= i < n :: names[i] in staged
  {
    if n == 0 then base else Overlay(base, staged, names, n - 1)[names[n - 1] := staged[names[n - 1]]]
  }

  /** Entries name plain destinations and backups whose nonces were drawn after the prepared copies'. */
  predicate Entries(committed: seq<Committed>, low: nat, high: nat) {
    forall c | c in committed ::
      c.destination.Plain? && (c.backup.Some? ==> c.backup.value.Temporary? && low <= c.backup.value.nonce < high)
  }

  predicate IsBackup(committed: seq<Committed>, n: Name) {
    exists c | c in committed :: c.backup == Some(n)
  }

  /** Apart from new temporaries, the directory shows `shown`. */
  ghost predicate Shows(files: Files, first: nat, shown: Files) {
    forall n: Name | n.Plain? || n.nonce < first ::
      (n in files <==> n in shown) && (n in files ==> files[n] == shown[n])
  }

  /** The new temporaries are the copies still waiting and the backups. */
  ghost predicate Temporaries(files: Files, staged: Files, names: seq<Name>, first: nat, i: nat, committed: seq<Committed>)
    requires forall j | 0 <= j < |names| :: names[j] in staged
  {
    && (forall n | n in files && n.Temporary? && n.nonce >= first ::
          (i <= n.nonce - first < |names|) || IsBackup(committed, n))
    && (forall k | first + i <= k < first + |names| :: Temporary(k) in files && files[Temporary(k)] == staged[names[k - first]])
  }

  predicate Ready(base: Files, staged: Files, names: seq<Name>, first: nat) {
    Unused(base, first) && forall j | 0 <= j < |names| :: names[j] in staged && names[j].Plain?
  }

  /** `committed` undoes to the start, and the first `i` names are installed. */
  ghost predicate Halfway(files: Files, base: Files, staged: Files, names: seq<Name>, first: nat, nonce: nat,
                          i: nat, committed: seq<Committed>)
    requires i <= |names| && Ready(base, staged, names, first)
  {
    && first + |names| <= nonce && Entries(committed, first + |names|, nonce)
    && Undo(files, committed) == base + Prepared(staged, names, first, i, |names|)
    && Temporaries(files, staged, names, first, i, committed)
    && Shows(files, first, Overlay(base, staged, names, i))
  }

  lemma {:induction false} UndoFrame(files: Files, committed: seq<Committed>, t: Name)
    requires forall c | c in committed :: c.destination != t && c.backup != Some(t)
    ensures Undo(files - {t}, committed) == Undo(files, committed) - {t}
    ensures t in files ==> t in Undo(files, committed) && Undo(files, committed)[t] == files[t]
    decreases |committed|
  {
    if committed != [] {
      var last, init := committed[|committed| - 1], committed[..|committed| - 1];
      assert last in committed;
      assert UndoOne(files - {t}, last) == UndoOne(files, last) - {t};
      UndoFrame(UndoOne(files, last), init, t);
    }
  }

  /** Replacing one file with its prepared copy is undone exactly by its rollback entry. */
  function ReplaceOne(files: Files, destination: Name, temporary: Name, backup: Name): Files
    requires temporary in files && temporary != destination
  {
    var kept := if destination in files then (files - {destination})[backup := files[destination]] else files;
    (kept - {temporary})[destination := files[temporary]]
  }

  lemma UndoReplace(files: Files, destination: Name, temporary: Name, backup: Name)
    requires temporary in files && temporary != destination && backup !in files
    ensures UndoOne(ReplaceOne(files, destination, temporary, backup),
                    Committed(destination, if destination in files then Some(backup) else None))
            == files - {temporary}
  {
  }

  lemma UndoSnoc(files: Files, committed: seq<Committed>, c: Committed)
    ensures Undo(files, committed + [c]) == Undo(UndoOne(files, c), committed)
  {
    assert (committed + [c])[..|committed|] == committed;
  }

  lemma UndoStep(files: Files, base: Files, staged: Files, names: seq<Name>, first: nat, nonce: nat, i: nat,
                 committed: seq<Committed>, c: Committed)
    requires i < |names| && Ready(base, staged, names, first)
    requires Halfway(files, base, staged, names, first, nonce, i, committed)
    requires c == Committed(names[i], if names[i] in files then Some(Temporary(nonce)) else None)
    ensures Temporary(nonce) !in files && Temporary(first + i) in files
    ensures Undo(ReplaceOne(files, names[i], Temporary(first + i), Temporary(nonce)), committed + [c])
            == base + Prepared(staged, names, first, i + 1, |names|)
  {
    var temporary, backup := Temporary(first + i), Temporary(nonce);
    UndoReplace(files, names[i], temporary, backup);
    UndoSnoc(ReplaceOne(files, names[i], temporary, backup), committed, c);
    UndoFrame(files, committed, temporary);
    PreparedShrinks(base, staged, names, first, i);
  }

  lemma TemporariesStep(files: Files, base: Files, staged: Files, names: seq<Name>, first: nat, nonce: nat, i: nat,
                        committed: seq<Committed>, c: Committed)
    requires i < |names| && Ready(base, staged, names, first) && first + |names| <= nonce
    requires Temporaries(files, staged, names, first, i, committed)
    requires c == Committed(names[i], if names[i] in files then Some(Temporary(nonce)) else None)
    ensures Temporary(first + i) in files
    ensures Temporaries(ReplaceOne(files, names[i], Temporary(first + i), Temporary(nonce)),
                        staged, names, first, i + 1, committed + [c])
  {
    var next := ReplaceOne(files, names[i], Temporary(first + i), Temporary(nonce));
    var longer := committed + [c];
    forall n | n in next && n.Temporary? && n.nonce >= first
      ensures (i + 1 <= n.nonce - first < |names|) || IsBackup(longer, n)
    {
      if n == Temporary(nonce) && names[i] in files {
        assert c in longer;
      } else if IsBackup(committed, n) {
        var d :| d in committed && d.backup == Some(n);
        assert d in longer;
      }
    }
  }

  lemma ShowsStep(files: Files, base: Files, staged: Files, names: seq<Name>, first: nat, nonce: nat, i: nat)
    requires i < |names| && Ready(base, staged, names, first) && first <= nonce
    requires Shows(files, first, Overlay(base, staged, names, i))
    requires Temporary(first + i) in files && files[Temporary(first + i)] == staged[names[i]]
    ensures Shows(ReplaceOne(files, names[i], Temporary(first + i), Temporary(nonce)), first,
                  Overlay(base, staged, names, i + 1))
  {
  }

  lemma CommitStep(files: Files, base: Files, staged: Files, names: seq<Name>, first: nat, nonce: nat, i: nat,
                   committed: seq<Committed>, c: Committed)
    requires i < |names| && Ready(base, staged, names, first)
    requires Halfway(files, base, staged, names, first, nonce, i, committed)
    requires c == Committed(names[i], if names[i] in files then Some(Temporary(nonce)) else None)
    ensures Temporary(nonce) !in files && Temporary(first + i) in files
    ensures Halfway(ReplaceOne(files, names[i], Temporary(first + i), Temporary(nonce)),
                    base, staged, names, first, nonce + 1, i + 1, committed + [c])
  {
    UndoStep(files, base, staged, names, first, nonce, i, committed, c);
    TemporariesStep(files, base, staged, names, first, nonce, i, committed, c);
    ShowsStep(files, base, staged, names, first, nonce, i);
  }

  /** Back up and replace one file, or leave the directory as it was. */
  method CommitOne(target: Directory, destination: Name, temporary: Name, spare: Name)
    returns (ok: bool, backup: Option<Name>)
    requires temporary in target.files && spare !in target.files && destination.Plain?
    requires temporary.Temporary? && spare.Temporary? && temporary != spare
    modifies target
    ensures ok ==> target.files == ReplaceOne(old(target.files), destination, temporary, spare)
    ensures ok ==> backup == if destination in old(target.files) then Some(spare) else None
    ensures !ok ==> target.files == old(target.files) && !target.reliable
  {
    ghost var before := target.files;
    backup := None;
    if destination in target.files {
      ok := target.Rename(destination, spare);
      if !ok {
        return;
      }
      backup := Some(spare);
    }
    ok := target.Rename(temporary, destination);
    if !ok {
      if backup.Some? {
        target.Restore(spare, destination);
      }
      assert target.files == before;
    }
  }

  method CommitAll(staged: Files, names: seq<Name>, first: nat, target: Directory, ghost base: Files)
    returns (ok: bool, committed: seq<Committed>, ghost nonce: nat)
    requires Ready(base, staged, names, first)
    requires target.files == base + Prepared(staged, names, first, 0, |names|)
    modifies target
    ensures ok ==> Halfway(target.files, base, staged, names, first, nonce, |names|, committed)
    ensures !ok ==> target.files == base && !target.reliable
  {
    committed := [];
    var next := first + |names|;
    nonce := next;
    for i := 0 to |names|
      invariant next == nonce
      invariant Halfway(target.files, base, staged, names, first, nonce, i, committed)
    {
      ghost var entry := Committed(names[i], if names[i] in target.files then Some(Temporary(next)) else None);
      CommitStep(target.files, base, staged, names, first, nonce, i, committed, entry);
      var backup;
      ok, backup := CommitOne(target, names[i], Temporary(first + i), Temporary(next));
      if !ok {
        GiveUp(staged, names, first, target, base, nonce, i, committed);
        return;
      }
      committed := committed + [Committed(names[i], backup)];
      next := next + 1;
      nonce := next;
    }
    ok := true;
  }

  /** The names to install and those that the directory's own manifest lists. */
  method ReadManifests(staged: Files, target: Directory, parse: Parser) returns (r: Option<(seq<Name>, seq<Name>)>)
    ensures r.Some? <==> Readable(parse, staged) && (INSTALL_MANIFEST in target.files ==> Readable(parse, target.files))
    ensures r.Some? ==>
              && ReadInstallManifest(parse, staged) == Some(r.value.0)
              && (INSTALL_MANIFEST in target.files ==> ReadInstallManifest(parse, target.files).Some?)
              && r.value.1 == Managed(parse, target.files)
              && forall n | n in r.value.0 :: n.Plain?
  {
    ManifestReads(parse, staged);
    ManifestReads(parse, target.files);
    var manifest := ReadInstallManifest(parse, staged);
    if manifest.None? {
      return None;
    }
    var installed := PreviousFiles(target, parse);
    r := if installed.None? then None else Some((manifest.value, installed.value));
  }

  /** Copy every file next to its place, then move all of them there, keeping what was there before. */
  method Exchange(staged: Files, names: seq<Name>, first: nat, target: Directory)
    returns (ok: bool, committed: seq<Committed>, ghost nonce: nat)
    requires Unused(target.files, first) && forall i | 0 <= i < |names| :: names[i].Plain?
    modifies target
    ensures ok ==> && Ready(old(target.files), staged, names, first)
                   && Halfway(target.files, old(target.files), staged, names, first, nonce, |names|, committed)
    ensures !ok ==> target.files == old(target.files)
    ensures !ok && target.reliable ==> exists i | 0 <= i < |names| :: names[i] !in staged
  {
    ghost var base := target.files;
    committed, nonce := [], 0;
    ok := PrepareAll(staged, names, first, target);
    if ok {
      ok, committed, nonce := CommitAll(staged, names, first, target, base);
    }
  }

  method GiveUp(staged: Files, names: seq<Name>, first: nat, target: Directory, ghost base: Files, ghost nonce: nat,
                i: nat, committed: seq<Committed>)
    requires i < |names| && Ready(base, staged, names, first)
    requires Halfway(target.files, base, staged, names, first, nonce, i, committed)
    modifies target
    ensures target.files == base
  {
    RollbackInstall(target, committed);
    DropTemporaries(target, first + i, first + |names|);
    assert target.files == base;
  }

  /** The directory after a successful install. */
  function Installed(base: Files, staged: Files, managed: seq<Name>, previous: seq<Name>): Files
    requires INSTALL_MANIFEST in staged && forall n | n in managed :: n in staged
  {
    var names := managed + [INSTALL_MANIFEST];
    assert forall i | 0 <= i < |names| :: names[i] in staged;
    Overlay(base, staged, names, |names|) - (set n | n in previous && n !in managed)
  }

  /** The names the directory's manifest lists, or none if it has no manifest. */
  function Managed(parse: Parser, files: Files): seq<Name> {
    match ReadInstallManifest(parse, files)
    case Some(names) => names
    case None => []
  }

  /** The files of the installation that is there; a manifest that cannot be read stops the install. */
  method PreviousFiles(target: Directory, parse: Parser) returns (r: Option<seq<Name>>)
    ensures r.Some? <==> INSTALL_MANIFEST !in target.files || ReadInstallManifest(parse, target.files).Some?
    ensures r.Some? ==> r.value == Managed(parse, target.files)
  {
    if INSTALL_MANIFEST in target.files {
      r := ReadInstallManifest(parse, target.files);
    } else {
      r := Some([]);
    }
  }

  /**
   * The outcome in the parser's names: every listed name holds its staged bytes, the manifest its staged bytes unless
   * the old one listed it, the other names listed before are gone, and all else is as it was.
   */
  ghost predicate InstalledAs(base: Files, staged: Files, after: Files, names: seq<string>, previous: seq<string>) {
    && (forall i | 0 <= i < |names| ::
          Plain(names[i]) in staged && Plain(names[i]) in after && after[Plain(names[i])] == staged[Plain(names[i])])
    && (forall i | 0 <= i < |previous| && previous[i] !in names :: Plain(previous[i]) !in after)
    && (INSTALL_MANIFEST in staged && INSTALL_MANIFEST.text !in previous ==>
          INSTALL_MANIFEST in after && after[INSTALL_MANIFEST] == staged[INSTALL_MANIFEST])
    && (forall n: Name | n != INSTALL_MANIFEST && !(n.Plain? && (n.text in names || n.text in previous)) ::
          (n in after <==> n in base) && (n in base ==> after[n] == base[n]))
  }

  /** The names that the manifest of the installation that is there lists. */
  function OldNames(parse: Parser, files: Files): seq<string> {
    if INSTALL_MANIFEST in files && parse(files[INSTALL_MANIFEST]).Some? then parse(files[INSTALL_MANIFEST]).value else []
  }

  lemma InstalledInNames(base: Files, staged: Files, names: seq<string>, previous: seq<string>,
                         managed: seq<Name>, former: seq<Name>)
    requires Named(managed, names) && Named(former, previous)
    requires INSTALL_MANIFEST in staged && forall n | n in managed :: n in staged
    ensures InstalledAs(base, staged, Installed(base, staged, managed, former), names, previous)
  {
    var after := Installed(base, staged, managed, former);
    forall n: Name
      ensures n.Plain? ==> (n in managed <==> n.text in names) && (n in former <==> n.text in previous)
      ensures !n.Plain? ==> n !in managed && n !in former
    {
      NamedHas(managed, names, n);
      NamedHas(former, previous, n);
    }
    forall n: Name
      ensures if n in managed then n in after && after[n] == staged[n]
              else if n in former then n !in after
              else if n == INSTALL_MANIFEST then n in after && after[n] == staged[n]
              else (n in after <==> n in base) && (n in base ==> after[n] == base[n])
    {
      InstalledHolds(base, staged, managed, former, n);
    }
    forall i | 0 <= i < |names|
      ensures Plain(names[i]) in staged && Plain(names[i]) in after && after[Plain(names[i])] == staged[Plain(names[i])]
    {
      assert managed[i] == Plain(names[i]);
    }
  }

  predicate Named(files: seq<Name>, names: seq<string>) {
    |files| == |names| && forall i | 0 <= i < |names| :: files[i] == Plain(names[i])
  }

  lemma NamedHas(files: seq<Name>, names: seq<string>, n: Name)
    requires Named(files, names)
    ensures n in files <==> n.Plain? && n.text in names
  {
    if n in files {
      var i :| 0 <= i < |files| && files[i] == n;
      assert names[i] == n.text;
    }
    if n.Plain? && n.text in names {
      var i :| 0 <= i < |names| && names[i] == n.text;
      assert files[i] == n;
    }
  }

  /** What a successful install leaves, in the names that the parser reads from the two manifests. */
  lemma OutcomeInNames(parse: Parser, base: Files, staged: Files)
    requires ReadInstallManifest(parse, staged).Some?
    requires forall n | n in ReadInstallManifest(parse, staged).value :: n in staged
    requires INSTALL_MANIFEST in base ==> ReadInstallManifest(parse, base).Some?
    ensures INSTALL_MANIFEST in staged && parse(staged[INSTALL_MANIFEST]).Some?
    ensures Lists(parse, staged, parse(staged[INSTALL_MANIFEST]).value)
    ensures InstalledAs(base, staged,
                        Installed(base, staged, ReadInstallManifest(parse, staged).value, Managed(parse, base)),
                        parse(staged[INSTALL_MANIFEST]).value, OldNames(parse, base))
  {
    ManifestReads(parse, staged);
    ManifestReads(parse, base);
    InstalledInNames(base, staged, parse(staged[INSTALL_MANIFEST]).value, OldNames(parse, base),
                     ReadInstallManifest(parse, staged).value, Managed(parse, base));
  }

  predicate Readable(parse: Parser, files: Files) {
    && INSTALL_MANIFEST in files && parse(files[INSTALL_MANIFEST]).Some?
    && Lists(parse, files, parse(files[INSTALL_MANIFEST]).value)
  }

  /** What the verification is shown: the staged file where the new manifest lists it, else the one that was there. */
  function Placed(parse: Parser, base: Files, staged: Files, binary: Name): Option<Bytes>
    requires Readable(parse, staged)
  {
    var listed := binary == INSTALL_MANIFEST || (binary.Plain? && binary.text in parse(staged[INSTALL_MANIFEST]).value);
    var from := if listed then staged else base;
    if binary in from then Some(from[binary]) else None
  }

  /** Everything but an operation that fails by itself that an install can be refused for. */
  predicate Refused(parse: Parser, base: Files, staged: Files, binary: Name, verify: Option<Bytes> -> bool) {
    || !Readable(parse, staged)
    || (INSTALL_MANIFEST in base && !Readable(parse, base))
    || (exists i | 0 <= i < |parse(staged[INSTALL_MANIFEST]).value| ::
          Plain(parse(staged[INSTALL_MANIFEST]).value[i]) !in staged)
    || !verify(Placed(parse, base, staged, binary))
  }

  lemma PlacedIsOverlaid(parse: Parser, base: Files, staged: Files, binary: Name)
    requires ReadInstallManifest(parse, staged).Some?
    requires forall n | n in ReadInstallManifest(parse, staged).value :: n in staged
    ensures Readable(parse, staged)
    ensures var names := ReadInstallManifest(parse, staged).value + [INSTALL_MANIFEST];
            && (forall i | 0 <= i < |names| :: names[i] in staged)
            && var all := Overlay(base, staged, names, |names|);
               Placed(parse, base, staged, binary) == if binary in all then Some(all[binary]) else None
  {
    ManifestReads(parse, staged);
    var managed := ReadInstallManifest(parse, staged).value;
    var names := managed + [INSTALL_MANIFEST];
    assert forall i | 0 <= i < |names| :: names[i] in staged;
    OverlayKeys(base, staged, names, |names|);
    NamedHas(managed, parse(staged[INSTALL_MANIFEST]).value, binary);
    assert names[..|names|] == names;
    assert binary in names <==> binary in managed || binary == INSTALL_MANIFEST;
  }

  lemma ManagedAreStaged(staged: Files, managed: seq<Name>)
    requires var names := managed + [INSTALL_MANIFEST]; forall i | 0 <= i < |names| :: names[i] in staged
    ensures forall n | n in managed :: n in staged
  {
    var names := managed + [INSTALL_MANIFEST];
    forall n | n in managed
      ensures n in staged
    {
      var i :| 0 <= i < |managed| && managed[i] == n;
      assert names[i] == n;
    }
  }

  /** A name the copying misses is a listed name that is not staged. */
  lemma MissingIsListed(parse: Parser, staged: Files, names: seq<Name>)
    requires ReadInstallManifest(parse, staged).Some?
    requires names == ReadInstallManifest(parse, staged).value + [INSTALL_MANIFEST]
    requires exists i | 0 <= i < |names| :: names[i] !in staged
    ensures Readable(parse, staged)
    ensures var listed := parse(staged[INSTALL_MANIFEST]).value;
            exists i | 0 <= i < |listed| :: Plain(listed[i]) !in staged
  {
    ManifestReads(parse, staged);
    var i :| 0 <= i < |names| && names[i] !in staged;
    assert names[i] == Plain(parse(staged[INSTALL_MANIFEST]).value[i]);
  }

  /**
   * The install is a transaction.  Whatever copy, backup or commit fails, or if verification fails, the
   * directory is exactly what it was; on success it is exactly the installed directory.
   */
  method CommitStagedInstall(staged: Files, target: Directory, parse: Parser, binary: Name,
                             verify: Option<Bytes> -> bool, nonce: nat)
    returns (ok: bool)
    requires Unused(target.files, nonce)
    modifies target
    ensures !ok ==> target.files == old(target.files)
    ensures ok ==>
              && ReadInstallManifest(parse, staged).Some?
              && var managed := ReadInstallManifest(parse, staged).value;
                 && (forall n | n in managed :: n in staged)
                 && (INSTALL_MANIFEST in old(target.files) ==> ReadInstallManifest(parse, old(target.files)).Some?)
                 && var previous := Managed(parse, old(target.files));
                    target.files == Installed(old(target.files), staged, managed, previous)
    ensures ok ==>
              && INSTALL_MANIFEST in staged && parse(staged[INSTALL_MANIFEST]).Some?
              && var names := parse(staged[INSTALL_MANIFEST]).value;
                 && (forall i | 0 <= i < |names| :: Direct(names[i]))
                 && InstalledAs(old(target.files), staged, target.files, names, OldNames(parse, old(target.files)))
    ensures ok && binary.Plain? ==> !Refused(parse, old(target.files), staged, binary, verify)
    ensures !ok && binary.Plain? && target.reliable ==> Refused(parse, old(target.files), staged, binary, verify)
  {
    ghost var base := target.files;
    var read := ReadManifests(staged, target, parse);
    if read.None? {
      return false;
    }
    var (managed, previous) := read.value;
    var names := managed + [INSTALL_MANIFEST];
    var done, committed;
    ghost var last;
    done, committed, last := Exchange(staged, names, nonce, target);
    if !done {
      if target.reliable {
        MissingIsListed(parse, staged, names);
      }
      return false;
    }
    ManagedAreStaged(staged, managed);
    PlacedIsOverlaid(parse, base, staged, binary);
    if !verify(if binary in target.files then Some(target.files[binary]) else None) {
      RollbackInstall(target, committed);
      assert target.files == base;
      return false;
    }
    RemoveBackups(target, committed, base, staged, names, nonce, last);
    RemoveObsolete(target, previous, managed);
    OutcomeInNames(parse, base, staged);
    ok := true;
  }

  method RemoveBackups(target: Directory, committed: seq<Committed>, ghost base: Files, ghost staged: Files,
                       ghost names: seq<Name>, ghost first: nat, ghost nonce: nat)
    requires Ready(base, staged, names, first)
    requires Halfway(target.files, base, staged, names, first, nonce, |names|, committed)
    modifies target
    ensures target.files == Overlay(base, staged, names, |names|)
  {
    ghost var before := target.files;
    for i := 0 to |committed|
      invariant target.files == before - BackupsOf(committed[..i])
    {
      BackupsSnoc(committed, i);
      if committed[i].backup.Some? {
        target.Remove(committed[i].backup.value);
      }
    }
    assert committed[..|committed|] == committed;
    WithoutBackups(before, base, staged, names, first, nonce, committed);
  }

  function BackupsOf(committed: seq<Committed>): set<Name> {
    set c | c in committed && c.backup.Some? :: c.backup.value
  }

  lemma BackupsSnoc(committed: seq<Committed>, i: nat)
    requires i < |committed|
    ensures BackupsOf(committed[..i + 1]) ==
            BackupsOf(committed[..i]) + if committed[i].backup.Some? then {committed[i].backup.value} else {}
  {
    assert committed[..i + 1] == committed[..i] + [committed[i]];
  }

  lemma WithoutBackups(files: Files, base: Files, staged: Files, names: seq<Name>, first: nat, nonce: nat,
                       committed: seq<Committed>)
    requires Ready(base, staged, names, first)
    requires Halfway(files, base, staged, names, first, nonce, |names|, committed)
    ensures files - BackupsOf(committed) == Overlay(base, staged, names, |names|)
  {
    OverlayKeys(base, staged, names, |names|);
    var shown := Overlay(base, staged, names, |names|);
    var left := files - BackupsOf(committed);
    forall n ensures (n in left <==> n in shown) && (n in left ==> left[n] == shown[n]) {
      if n.Plain? || n.nonce < first {
        assert n !in BackupsOf(committed);
      } else {
        assert n in files ==> IsBackup(committed, n);
      }
    }
  }

  lemma {:induction false} OverlayKeys(base: Files, staged: Files, names: seq<Name>, n: nat)
    requires n <= |names| && forall i | 0 <= i < n :: names[i] in staged
    ensures forall k :: k in Overlay(base, staged, names, n) <==> k in base || k in names[..n]
    ensures forall k | k in Overlay(base, staged, names, n) ::
              Overlay(base, staged, names, n)[k] == if k in names[..n] then staged[k] else base[k]
  {
    if n > 0 {
      OverlayKeys(base, staged, names, n - 1);
      assert names[..n] == names[..n - 1] + [names[n - 1]];
    }
  }

  method RemoveObsolete(target: Directory, previous: seq<Name>, managed: seq<Name>)
    modifies target
    ensures target.files == old(target.files) - (set n | n in previous && n !in managed)
  {
    for i := 0 to |previous|
      invariant target.files == old(target.files) - (set n | n in previous[..i] && n !in managed)
    {
      assert previous[..i + 1] == previous[..i] + [previous[i]];
      if previous[i] !in managed {
        target.Remove(previous[i]);
      }
    }
    assert previous[..|previous|] == previous;
  }

  // ---- What an installed directory holds ----

  /** Managed files hold staged bytes, files of the previous installation that are gone are gone, all else stays. */
  lemma InstalledHolds(base: Files, staged: Files, managed: seq<Name>, previous: seq<Name>, n: Name)
    requires INSTALL_MANIFEST in staged && forall m | m in managed :: m in staged
    ensures var after := Installed(base, staged, managed, previous);
            if n in managed then n in after && after[n] == staged[n]
            else if n in previous then n !in after
            else if n == INSTALL_MANIFEST then n in after && after[n] == staged[n]
            else (n in after <==> n in base) && (n in base ==> after[n] == base[n])
  {
    var names := managed + [INSTALL_MANIFEST];
    assert forall i | 0 <= i < |names| :: names[i] in staged;
    OverlayKeys(base, staged, names, |names|);
    assert names[..|names|] == names;
    assert n in names <==> n in managed || n == INSTALL_MANIFEST;
  }

  /** The new manifest survives exactly when the old one did not list it as a file to be dropped. */
  lemma ManifestSurvives(base: Files, staged: Files, managed: seq<Name>, previous: seq<Name>)
    requires INSTALL_MANIFEST in staged && forall m | m in managed :: m in staged
    ensures INSTALL_MANIFEST in Installed(base, staged, managed, previous) <==>
            INSTALL_MANIFEST !in previous || INSTALL_MANIFEST in managed
  {
    InstalledHolds(base, staged, managed, previous, INSTALL_MANIFEST);
  }

  lemma ReadsOne(parse: Parser, files: Files, name: string)
    requires INSTALL_MANIFEST in files && parse(files[INSTALL_MANIFEST]) == Some([name]) && Direct(name)
    ensures ReadInstallManifest(parse, files) == Some([Plain(name)])
  {
    AcceptedNames(name);
    assert seq(1, i requires 0 <= i < 1 => Plain([name][i])) == [Plain(name)];
  }

  lemma SelfIsDirect(self: string)
    requires INSTALL_MANIFEST == Plain(self)
    ensures Direct(self)
  {
  }

  /**
   * An old manifest that lists itself makes a successful install delete the new manifest: whatever else the
   * directories hold, if the old manifest reads as itself alone and the new one as another name, it is gone.
   */
  lemma SelfListedManifestIsLost(parse: Parser, base: Files, staged: Files, self: string, name: string)
    requires INSTALL_MANIFEST == Plain(self) && Direct(name) && name != self && Plain(name) in staged
    requires INSTALL_MANIFEST in base && parse(base[INSTALL_MANIFEST]) == Some([self])
    requires INSTALL_MANIFEST in staged && parse(staged[INSTALL_MANIFEST]) == Some([name])
    ensures ReadInstallManifest(parse, staged) == Some([Plain(name)])
    ensures ReadInstallManifest(parse, base) == Some([INSTALL_MANIFEST])
    ensures INSTALL_MANIFEST !in Installed(base, staged, [Plain(name)], Managed(parse, base))
  {
    SelfIsDirect(self);
    ReadsOne(parse, base, self);
    ReadsOne(parse, staged, name);
    ManifestSurvives(base, staged, [Plain(name)], [INSTALL_MANIFEST]);
  }

  /** For every other file name there is such a parser and such a pair of directories. */
  lemma SelfListedManifestExample(self: string, name: string) returns (parse: Parser, base: Files, staged: Files)
    requires INSTALL_MANIFEST == Plain(self) && Direct(name) && name != self
    ensures INSTALL_MANIFEST in staged && Plain(name) in staged
    ensures ReadInstallManifest(parse, staged) == Some([Plain(name)])
    ensures INSTALL_MANIFEST !in Installed(base, staged, [Plain(name)], Managed(parse, base))
  {
    parse := (bytes: Bytes) => if bytes == "" then Some([self]) else Some([name]);
    base := map[INSTALL_MANIFEST := ""];
    staged := map[INSTALL_MANIFEST := "new", Plain(name) := "binary"];
    SelfListedManifestIsLost(parse, base, staged, self, name);
  }
}
