/**
 * The server's file-system session state (class FileSystem): the current
 * directory, the file staged by RETR, the name staged by NAME and the pending
 * STOR mode, over an abstract host tree.  Paths are kept textually, as
 * java.io.File keeps them ("." and ".." stay in the text); the host resolves
 * them lexically when it looks a path up.
 */
module ServerFileSystem {
  import opened Wrappers
  import opened Text
  import opened Sftp

  /** The components of an absolute path; [] is "/". */
  type Path = seq<string>

  datatype Entry = File(data: seq<byte>) | Dir

  /** The host tree: every existing file and directory by its resolved path. */
  type Tree = map<Path, Entry>

  const NEW_FILE_LIMIT: nat := 10000
  const FILE_SIZE_LIMIT: nat := 50

  // The fixed reply texts of the file-system operations.
  const RENAME_UNSTAGED := "-File wasn't renamed because file is not specified"
  const RENAME_FAILED := "-File wasn't renamed as renaming failed"
  const DELETE_MISSING := "-Not deleted because file does not exist"
  const DELETE_FAILED := "-Not deleted because deleting process failed"
  const CANCEL_UNSTAGED := "-No File selected on remote server"
  const SAVE_LIMIT := "-Couldn't save because file limit of duplicate files was reached"
  const SAVE_UNSPECIFIED := "-Couldn't save because STOR operation was not specified"
  const SAVE_NOT_TEXT := " -Couldn't save because file is not of text type"
  const NAME_ABORTED := "\n  NAME command is aborted, don't send TOBE"

  /**
   * What the host answers that the model cannot compute: the order in which it
   * lists each directory, the V-mode attribute text of each entry, whether a
   * rename, a delete and a write succeed, and the text of the exception a
   * failed save is reported with.
   */
  datatype Host = Host(
    listings: map<Path, seq<string>>,
    stamps: map<Path, string>,
    renameOk: bool,
    deleteOk: bool,
    writeOk: bool,
    errorText: string)

  // ---- paths ----

  function NormalizeFrom(acc: Path, p: Path): Path
    decreases |p|
  {
    if p == [] then acc
    else if p[0] == "." then NormalizeFrom(acc, p[1..])
    else if p[0] == ".." then NormalizeFrom(if acc == [] then [] else acc[..|acc| - 1], p[1..])
    else NormalizeFrom(acc + [p[0]], p[1..])
  }

  /** The path the host looks up: "." dropped, ".." taking away the component before it. */
  function Normalize(p: Path): Path
  {
    NormalizeFrom([], p)
  }

  function NonEmpty(parts: seq<string>): (r: seq<string>)
    ensures forall i :: 0 <= i < |r| ==> r[i] != ""
    decreases |parts|
  {
    if parts == [] then []
    else (if parts[0] == "" then [] else [parts[0]]) + NonEmpty(parts[1..])
  }

  /** The components java.io.File makes of a name: split on '/', empty pieces dropped. */
  function Segments(name: string): seq<string>
  {
    NonEmpty(SplitAll(name, '/'))
  }

  /** `dir + "/" + name` as a path. */
  function Resolve(dir: Path, name: string): Path
  {
    dir + Segments(name)
  }

  /** getPath / getAbsolutePath of an absolute path. */
  function PathText(p: Path): string
  {
    "/" + Join(p, '/')
  }

  /** getName: the last component. */
  function LastName(p: Path): string
  {
    if p == [] then "" else p[|p| - 1]
  }

  predicate Exists(tree: Tree, p: Path)
  {
    Normalize(p) in tree
  }

  predicate IsDir(tree: Tree, p: Path)
  {
    Normalize(p) in tree && tree[Normalize(p)].Dir?
  }

  /** Nothing lies below the resolved path. */
  predicate IsLeaf(tree: Tree, p: Path)
  {
    forall q :: q in tree && |q| > |Normalize(p)| ==> q[..|Normalize(p)|] != Normalize(p)
  }

  ghost predicate IsChild(d: Path, p: Path)
  {
    |p| == |d| + 1 && p[..|d|] == d
  }

  /** `names` lists the entries directly inside directory `d`, each once. */
  ghost predicate IsListing(tree: Tree, d: Path, names: seq<string>)
  {
    && (forall i, j :: 0 <= i < j < |names| ==> names[i] != names[j])
    && (forall i :: 0 <= i < |names| ==> d + [names[i]] in tree)
    && (forall p :: p in tree && IsChild(d, p) ==> p[|d|] in names)
  }

  /** The host lists every directory truthfully. */
  ghost predicate HostFits(tree: Tree, host: Host)
  {
    forall d :: d in tree && tree[d].Dir? ==> d in host.listings && IsListing(tree, d, host.listings[d])
  }

  // ---- classification of stored files ----

  /** The test the code uses: the name contains ".txt" anywhere, not as a suffix. */
  predicate IsTextName(name: string)
  {
    Contains(name, ".txt")
  }

  /** Where a STOR of `name` goes: base/text/<name> or base/other/<name>. */
  function StorePath(base: Path, name: string): Path
  {
    base + [if IsTextName(name) then "text" else "other"] + Segments(name)
  }

  /** The name of the i-th generation NEW writes: new_<i>_<name>. */
  function DedupName(i: nat, name: string): string
  {
    "new_" + NatToDecimal(i) + "_" + name
  }

  /** The prefix of a generation name holds no '.', so it does not change the classification. */
  lemma DedupKeepsClass(i: nat, name: string)
    ensures IsTextName(DedupName(i, name)) <==> IsTextName(name)
  {
    var prefix := "new_" + NatToDecimal(i) + "_";
    assert DedupName(i, name) == prefix + name;
    assert '.' !in prefix by {
      forall k | 0 <= k < |prefix| ensures prefix[k] != '.' {
        if 4 <= k < |prefix| - 1 { assert prefix[k] == NatToDecimal(i)[k - 4]; }
      }
    }
    ContainsPrepend(prefix, name, ".txt");
  }

  /** The path NEW writes generation i to. */
  function DedupPath(base: Path, name: string, i: nat): Path
  {
    StorePath(base, DedupName(i, name))
  }

  /** The smallest generation in [from, NEW_FILE_LIMIT) that does not exist yet. */
  function FirstFree(tree: Tree, base: Path, name: string, from: nat): (r: Option<nat>)
    ensures r.Some? ==> from <= r.value < NEW_FILE_LIMIT && !Exists(tree, DedupPath(base, name, r.value))
    ensures r.Some? ==> forall j :: from <= j < r.value ==> Exists(tree, DedupPath(base, name, j))
    ensures r.None? ==> forall j :: from <= j < NEW_FILE_LIMIT ==> Exists(tree, DedupPath(base, name, j))
    decreases NEW_FILE_LIMIT - from
  {
    if from >= NEW_FILE_LIMIT then None
    else if !Exists(tree, DedupPath(base, name, from)) then Some(from)
    else FirstFree(tree, base, name, from + 1)
  }

  // ---- saving ----

  /** The tree, the reply and the STOR mode after a save. */
  datatype Saved = Saved(tree: Tree, response: string, mode: Option<string>)

  /** Files.write and FileOutputStream throw for a directory target or a missing parent. */
  predicate WriteFails(tree: Tree, p: Path, host: Host)
  {
    var n := Normalize(p);
    || !host.writeOk
    || (n in tree && tree[n].Dir?)
    || n == []
    || !(n[..|n| - 1] in tree && tree[n[..|n| - 1]].Dir?)
  }

  /** Files.write(p, bytes); a thrown exception is reported and leaves the mode. */
  function WriteOutcome(tree: Tree, p: Path, bytes: seq<byte>, host: Host, mode: Option<string>): Saved
  {
    if WriteFails(tree, p, host) then Saved(tree, " -Couldn't save because " + host.errorText, mode)
    else Saved(tree[Normalize(p) := File(bytes)], "+Saved " + PathText(p), Some("IDLE"))
  }

  /** Appending through a FileOutputStream opened in append mode. */
  function AppendOutcome(tree: Tree, p: Path, bytes: seq<byte>, host: Host, mode: Option<string>): Saved
  {
    if WriteFails(tree, p, host) || Normalize(p) !in tree then Saved(tree, " -Couldn't save because " + host.errorText, mode)
    else Saved(tree[Normalize(p) := File(tree[Normalize(p)].data + bytes)], "+Saved " + PathText(p), Some("IDLE"))
  }

  /** NEW with the file present: the first free generation, or the limit reply. */
  function NewOutcome(tree: Tree, base: Path, mode: Option<string>, name: string, bytes: seq<byte>, host: Host): Saved
  {
    match FirstFree(tree, base, name, 0)
    case None => Saved(tree, SAVE_LIMIT, Some("IDLE"))
    case Some(i) => WriteOutcome(tree, DedupPath(base, name, i), bytes, host, mode)
  }

  /** processSTORSequence as a function of the tree, the pending mode and the host's answers. */
  function Save(tree: Tree, base: Path, mode: Option<string>, name: string, bytes: seq<byte>, host: Host): Saved
  {
    var target := StorePath(base, name);
    if !Exists(tree, target) then WriteOutcome(tree, target, bytes, host, mode)
    else if mode.None? then Saved(tree, " -Couldn't save because " + host.errorText, mode)
    else if mode.value == "IDLE" then Saved(tree, SAVE_UNSPECIFIED, Some("IDLE"))
    else if mode.value == "NEW" then NewOutcome(tree, base, mode, name, bytes, host)
    else if mode.value == "OLD" then WriteOutcome(tree, target, bytes, host, mode)
    else if mode.value == "APP" then
      if IsTextName(name) then AppendOutcome(tree, target, bytes, host, mode)
      else Saved(tree, SAVE_NOT_TEXT, Some("IDLE"))
    else Saved(tree, "", Some("IDLE"))
  }

  /** Only an exception keeps the pending mode; every other outcome leaves IDLE. */
  lemma SaveResetsMode(tree: Tree, base: Path, mode: Option<string>, name: string, bytes: seq<byte>, host: Host)
    ensures var r := Save(tree, base, mode, name, bytes, host);
      r.mode != Some("IDLE") ==> r.tree == tree && r.response == " -Couldn't save because " + host.errorText && r.mode == mode
  {
    var target := StorePath(base, name);
    if Exists(tree, target) && mode.Some? && mode.value == "NEW" {
      NewResetsMode(tree, base, mode, name, bytes, host);
    }
  }

  lemma NewResetsMode(tree: Tree, base: Path, mode: Option<string>, name: string, bytes: seq<byte>, host: Host)
    ensures var r := NewOutcome(tree, base, mode, name, bytes, host);
      r.mode != Some("IDLE") ==> r.tree == tree && r.response == " -Couldn't save because " + host.errorText && r.mode == mode
  {
    match FirstFree(tree, base, name, 0)
    case None =>
    case Some(i) =>
  }

  /** A name not stored yet is written at its classified place whatever the mode, IDLE and null included. */
  lemma SaveAbsentWritesAnyMode(tree: Tree, base: Path, mode: Option<string>, name: string, bytes: seq<byte>, host: Host)
    requires !Exists(tree, StorePath(base, name)) && !WriteFails(tree, StorePath(base, name), host)
    ensures var r := Save(tree, base, mode, name, bytes, host);
      && r.tree == tree[Normalize(StorePath(base, name)) := File(bytes)]
      && r.response == "+Saved " + PathText(StorePath(base, name))
      && r.mode == Some("IDLE")
  {
  }

  /** With the file present, OLD replaces its content by exactly the received bytes. */
  lemma SaveOldReplaces(tree: Tree, base: Path, name: string, bytes: seq<byte>, host: Host)
    requires Exists(tree, StorePath(base, name)) && !WriteFails(tree, StorePath(base, name), host)
    ensures var r := Save(tree, base, Some("OLD"), name, bytes, host);
      && r.tree == tree[Normalize(StorePath(base, name)) := File(bytes)]
      && r.mode == Some("IDLE")
  {
  }

  /** With the file present, APP appends for a text name and changes nothing for any other name. */
  lemma SaveAppend(tree: Tree, base: Path, name: string, bytes: seq<byte>, host: Host)
    requires Exists(tree, StorePath(base, name))
    ensures var r := Save(tree, base, Some("APP"), name, bytes, host);
      var n := Normalize(StorePath(base, name));
      && (IsTextName(name) && !WriteFails(tree, StorePath(base, name), host) ==>
            r.tree == tree[n := File(tree[n].data + bytes)] && r.mode == Some("IDLE"))
      && (!IsTextName(name) ==>
            r.tree == tree && r.response == SAVE_NOT_TEXT && r.mode == Some("IDLE"))
  {
  }

  /** With the file present, IDLE writes nothing. */
  lemma SaveIdleWritesNothing(tree: Tree, base: Path, name: string, bytes: seq<byte>, host: Host)
    requires Exists(tree, StorePath(base, name))
    ensures Save(tree, base, Some("IDLE"), name, bytes, host).tree == tree
  {
  }

  /**
   * With the file present, NEW never overwrites: every existing entry keeps its
   * content, and the one entry added is the first free generation (FirstFree
   * states that it is the smallest); when all generations exist nothing is written.
   */
  lemma SaveNewNeverOverwrites(tree: Tree, base: Path, name: string, bytes: seq<byte>, host: Host)
    requires Exists(tree, StorePath(base, name))
    ensures var r := Save(tree, base, Some("NEW"), name, bytes, host);
      && (forall p :: p in tree ==> p in r.tree && r.tree[p] == tree[p])
      && (FirstFree(tree, base, name, 0).None? ==>
            r.tree == tree && r.response == SAVE_LIMIT)
      && (FirstFree(tree, base, name, 0).Some? ==>
            var k := FirstFree(tree, base, name, 0).value;
            !WriteFails(tree, DedupPath(base, name, k), host) ==>
              r.tree == tree[Normalize(DedupPath(base, name, k)) := File(bytes)])
  {
    var r := Save(tree, base, Some("NEW"), name, bytes, host);
    assert r == NewOutcome(tree, base, Some("NEW"), name, bytes, host);
    match FirstFree(tree, base, name, 0)
    case None =>
    case Some(k) =>
      var n := Normalize(DedupPath(base, name, k));
      assert n !in tree;
  }

  /** The reply of setFileOperation: what the save will do. */
  function StorPreview(mode: string, present: bool): string
  {
    if mode == "NEW" then
      "+" + (if present then "File exists, will create new generation of file" else "File does not exist, will create new file")
    else if mode == "OLD" then
      "+" + (if present then "Will write over old file" else "Will create new file")
    else if mode == "APP" then
      "+" + (if present then "Will append to file" else "Will create file")
    else ""
  }

  /** A known mode gets a positive reply of its own for each answer, so the client learns both. */
  lemma StorPreviewDistinguishes(m1: string, e1: bool, m2: string, e2: bool)
    requires m1 == "NEW" || m1 == "OLD" || m1 == "APP"
    requires m2 == "NEW" || m2 == "OLD" || m2 == "APP"
    ensures StorPreview(m1, e1) != "" && StorPreview(m1, e1)[0] == '+'
    ensures StorPreview(m1, e1) == StorPreview(m2, e2) ==> m1 == m2 && e1 == e2
  {
    // the six replies have six different lengths
    var r1, r2 := StorPreview(m1, e1), StorPreview(m2, e2);
    if r1 == r2 {
      assert |r1| == |r2|;
    }
  }

  // ---- listing ----

  /** A name in an F-mode listing: a directory carries a trailing '/'. */
  function Label(tree: Tree, d: Path, name: string): string
  {
    if d + [name] in tree && tree[d + [name]].Dir? then name + "/" else name
  }

  function FLine(tree: Tree, d: Path, name: string): string
  {
    "\r\n    " + Label(tree, d, name)
  }

  function FLines(tree: Tree, d: Path, names: seq<string>): string
    decreases |names|
  {
    if names == [] then ""
    else FLines(tree, d, names[..|names| - 1]) + FLine(tree, d, names[|names| - 1])
  }

  function Stamp(host: Host, p: Path): string
  {
    if p in host.stamps then host.stamps[p] else ""
  }

  /** A V-mode line: the name, "/ " for a directory or two blanks, then the host's attribute text. */
  function VLine(tree: Tree, d: Path, name: string, host: Host): string
  {
    "\r\n    " + name + (if d + [name] in tree && tree[d + [name]].Dir? then "/ " else "  ") + Stamp(host, d + [name])
  }

  function VLines(tree: Tree, d: Path, names: seq<string>, host: Host): string
    decreases |names|
  {
    if names == [] then ""
    else VLines(tree, d, names[..|names| - 1], host) + VLine(tree, d, names[|names| - 1], host)
  }

  lemma ContainsMiddle(a: string, b: string, c: string)
    ensures Contains(a + b + c, b)
  {
    var s := a + b + c;
    assert s[|a|..|a| + |b|] == b;
    assert OccursAt(s, b, |a|);
    ContainsIff(s, b);
  }

  lemma ContainsExtend(a: string, b: string, t: string)
    requires Contains(a, t)
    ensures Contains(a + b, t) && Contains(b + a, t)
  {
    ContainsIff(a, t);
    var k: nat :| OccursAt(a, t, k);
    assert (a + b)[k..k + |t|] == a[k..k + |t|];
    assert (b + a)[|b| + k..|b| + k + |t|] == a[k..k + |t|];
    assert OccursAt(a + b, t, k) && OccursAt(b + a, t, |b| + k);
    ContainsIff(a + b, t);
    ContainsIff(b + a, t);
  }

  lemma ContainsSelf(t: string)
    ensures Contains(t, t)
  {
    assert t[0..|t|] == t;
    assert OccursAt(t, t, 0);
    ContainsIff(t, t);
  }

  lemma {:induction false} FLinesMention(tree: Tree, d: Path, names: seq<string>, i: nat)
    requires i < |names|
    ensures Contains(FLines(tree, d, names), FLine(tree, d, names[i]))
    decreases |names|
  {
    var init := names[..|names| - 1];
    var last := FLine(tree, d, names[|names| - 1]);
    assert FLines(tree, d, names) == FLines(tree, d, init) + last;
    if i == |names| - 1 {
      ContainsSelf(last);
      ContainsExtend(last, FLines(tree, d, init), last);
    } else {
      assert names[i] == init[i];
      FLinesMention(tree, d, init, i);
      ContainsExtend(FLines(tree, d, init), last, FLine(tree, d, names[i]));
    }
  }

  /** The listing the host gives for a resolved directory. */
  function Listed(host: Host, d: Path): seq<string>
  {
    if d in host.listings then host.listings[d] else []
  }

  /** listDir: the reply to LIST for `dir` below the current directory. */
  function Listing(tree: Tree, current: Path, dir: string, mode: string, host: Host): string
  {
    var p := Resolve(current, dir);
    var d := Normalize(p);
    if !IsDir(tree, p) then "-Invalid Directory" + "\r\n"
    else if mode == "F" then "\r\n+Contents" + FLines(tree, d, Listed(host, d)) + "\r\n"
    else if mode == "V" then "\r\n+Contents" + VLines(tree, d, Listed(host, d), host) + "\r\n"
    else "\r\n+Contents" + "\r\n"
  }

  /**
   * An F-mode listing of a directory the host lists truthfully names every
   * entry inside it, a directory with a trailing '/'.
   */
  lemma FListingNamesEveryEntry(tree: Tree, current: Path, dir: string, host: Host, p: Path)
    requires HostFits(tree, host)
    requires var d := Normalize(Resolve(current, dir)); IsDir(tree, Resolve(current, dir)) && p in tree && IsChild(d, p)
    ensures var d := Normalize(Resolve(current, dir));
      Contains(Listing(tree, current, dir, "F", host), FLine(tree, d, p[|d|]))
  {
    var d := Normalize(Resolve(current, dir));
    var names := host.listings[d];
    assert IsListing(tree, d, names);
    var i :| 0 <= i < |names| && names[i] == p[|d|];
    var lines := FLines(tree, d, names);
    var line := FLine(tree, d, p[|d|]);
    FLinesMention(tree, d, names, i);
    ContainsExtend(lines, "\r\n", line);
    ContainsExtend(lines + "\r\n", "\r\n+Contents", line);
    assert Listing(tree, current, dir, "F", host) == "\r\n+Contents" + (lines + "\r\n");
  }

  // ---- changing directory ----

  /** The sandbox heuristic: an entry's absolute path names the client area or a source tree. */
  predicate Forbidden(dir: Path, name: string)
  {
    Contains(PathText(dir + [name]), "sftp.client/") || Contains(PathText(dir + [name]), "src/")
  }

  /** The index of the first forbidden entry of a listing. */
  function FirstForbidden(dir: Path, names: seq<string>): (r: Option<nat>)
    ensures r.Some? ==> r.value < |names| && Forbidden(dir, names[r.value])
    ensures r.Some? ==> forall j :: 0 <= j < r.value ==> !Forbidden(dir, names[j])
    ensures r.None? <==> forall j :: 0 <= j < |names| ==> !Forbidden(dir, names[j])
    decreases |names|
  {
    if names == [] then None
    else if Forbidden(dir, names[0]) then Some(0)
    else match FirstForbidden(dir, names[1..])
      case Some(i) => Some(i + 1)
      case None => None
  }

  /** The directory CDIR tries: None where getParent of "/" is null. */
  function CdirTarget(current: Path, base: Path, dir: string): Option<Path>
  {
    if dir == ".." || dir == "../" then (if current == [] then None else Some(current[..|current| - 1]))
    else if dir == "/" then Some(base)
    else Some(Resolve(current, dir))
  }

  datatype Moved = Moved(dir: Path, reply: string)

  const NOT_A_DIR := "-Can't connect to directory because: (It does not exist)"
  const OUTSIDE := "-" + "Can't connect to directory because: (Outside Server File System)"

  /** changeCurrentDir: the new current directory and the reply; None where Java throws. */
  function ChangeDir(tree: Tree, base: Path, current: Path, dir: string, host: Host): Option<Moved>
  {
    match CdirTarget(current, base, dir)
    case None => None
    case Some(target) =>
      var changed := "!Changed working dir to " + PathText(target);
      var names := Listed(host, Normalize(target));
      if !IsDir(tree, target) then Some(Moved(current, NOT_A_DIR))
      else if names == [] then Some(Moved(target, changed))
      else match FirstForbidden(target, names)
        case None => Some(Moved(target, changed))
        case Some(k) => Some(Moved(if k == 0 then current else target, OUTSIDE))
  }

  /** A target that is no directory leaves the current directory where it was. */
  lemma CdirNonDirectoryKeeps(tree: Tree, base: Path, current: Path, dir: string, host: Host)
    requires CdirTarget(current, base, dir).Some? && !IsDir(tree, CdirTarget(current, base, dir).value)
    ensures ChangeDir(tree, base, current, dir, host) == Some(Moved(current, NOT_A_DIR))
  {
  }

  /**
   * For an existing directory: the reply is a rejection exactly when some entry
   * is forbidden, yet the directory is entered unless the very first entry is.
   */
  lemma CdirRejectsIffForbidden(tree: Tree, base: Path, current: Path, dir: string, host: Host)
    requires CdirTarget(current, base, dir).Some? && IsDir(tree, CdirTarget(current, base, dir).value)
    ensures var target := CdirTarget(current, base, dir).value;
      var names := Listed(host, Normalize(target));
      var r := ChangeDir(tree, base, current, dir, host).value;
      && (r.reply == OUTSIDE <==> exists j :: 0 <= j < |names| && Forbidden(target, names[j]))
      && (r.reply != OUTSIDE ==> r.dir == target && r.reply == "!Changed working dir to " + PathText(target))
      && (r.dir == current && target != current ==> r.reply == OUTSIDE && Forbidden(target, names[0]))
  {
    var target := CdirTarget(current, base, dir).value;
    var names := Listed(host, Normalize(target));
    var r := ChangeDir(tree, base, current, dir, host).value;
    var changed := "!Changed working dir to " + PathText(target);
    assert changed != OUTSIDE by { assert changed[0] != OUTSIDE[0]; }
    if names == [] {
      assert r == Moved(target, changed);
    } else {
      match FirstForbidden(target, names)
      case None =>
        assert r == Moved(target, changed);
      case Some(k) =>
        assert Forbidden(target, names[k]);
    }
  }

  /** An empty directory is always entered. */
  lemma CdirEntersEmpty(tree: Tree, base: Path, current: Path, dir: string, host: Host)
    requires CdirTarget(current, base, dir).Some?
    requires var t := CdirTarget(current, base, dir).value; IsDir(tree, t) && Listed(host, Normalize(t)) == []
    ensures ChangeDir(tree, base, current, dir, host).value.dir == CdirTarget(current, base, dir).value
  {
  }

  /**
   * ".." is not held at the base: from the base it goes to the base's parent,
   * which is entered when that is a directory with no forbidden entry.
   */
  lemma CdirLeavesBase(tree: Tree, base: Path, dir: string, host: Host)
    requires base != [] && (dir == ".." || dir == "../")
    requires var up := base[..|base| - 1]; IsDir(tree, up) && FirstForbidden(up, Listed(host, Normalize(up))).None?
    ensures ChangeDir(tree, base, base, dir, host).value.dir == base[..|base| - 1] != base
  {
  }

  // ---- RETR, STOP, NAME/TOBE, KILL ----

  datatype Staged = Staged(file: Option<Path>, reply: string)

  /** The size RETR reports; java.io.File.length of a directory is host-specific and taken as 0. */
  function Size(e: Entry): nat
  {
    match e
    case File(data) => |data|
    case Dir => 0
  }

  /** getRequestedFileSize: stage the file and report its length, or clear the stage. */
  function Retr(tree: Tree, current: Path, name: string): Staged
  {
    var p := Resolve(current, name);
    if Exists(tree, p) then Staged(Some(p), NatToDecimal(Size(tree[Normalize(p)])))
    else Staged(None, "-File doesn't exist")
  }

  /** The RETR reply is a decimal length exactly when the file exists, and then it reads back as that length. */
  lemma RetrReportsLength(tree: Tree, current: Path, name: string)
    ensures var r := Retr(tree, current, name); var p := Resolve(current, name);
      && (r.file.Some? <==> Exists(tree, p))
      && (Exists(tree, p) ==> r.file == Some(p) && ParseDecimal(r.reply) == Some(Size(tree[Normalize(p)])))
      && (!Exists(tree, p) ==> ParseDecimal(r.reply) == None)
  {
    var p := Resolve(current, name);
    if Exists(tree, p) {
      DecimalRoundTrip(Size(tree[Normalize(p)]));
    } else {
      assert !IsDigit(Retr(tree, current, name).reply[0]);
    }
  }

  datatype Renamed = Renamed(tree: Tree, staged: Option<string>, reply: string)

  /** checkFileName: NAME stages the name exactly when it exists here. */
  function Name(tree: Tree, current: Path, name: string): Renamed
  {
    if Exists(tree, Resolve(current, name)) then Renamed(tree, Some(name), "+File exists")
    else Renamed(tree, None, "-Can't find " + name + NAME_ABORTED)
  }

  /** `p` is `d` itself or lies below it. */
  predicate Under(d: Path, p: Path)
  {
    |d| <= |p| && p[..|d|] == d
  }

  /** The entries at and below `from`, re-rooted at `to`. */
  function Rerooted(tree: Tree, from: Path, to: Path): (m: Tree)
    ensures forall q :: q in tree && Under(from, q) ==> to + q[|from|..] in m && m[to + q[|from|..]] == tree[q]
    ensures forall p :: p in m ==> Under(to, p) && from + p[|to|..] in tree && m[p] == tree[from + p[|to|..]]
  {
    // distinct entries below `from` get distinct new paths
    assert forall q :: Under(from, q) ==> q == from + q[|from|..] && (to + q[|from|..])[|to|..] == q[|from|..];
    map q | q in tree && Under(from, q) :: to + q[|from|..] := tree[q]
  }

  /**
   * What a successful renameTo does to the tree: whatever was at `to` is gone,
   * and the entry at `from` with everything below it is re-rooted at `to`.
   */
  function Relocated(tree: Tree, from: Path, to: Path): (r: Tree)
    requires from in tree
    ensures to in r && r[to] == tree[from]
    ensures forall p :: p in tree && !Under(from, p) && !Under(to, p) ==> p in r && r[p] == tree[p]
    ensures forall p :: p in r && !Under(to, p) ==> p in tree && !Under(from, p) && r[p] == tree[p]
    ensures forall q :: q in tree && Under(from, q) ==> to + q[|from|..] in r && r[to + q[|from|..]] == tree[q]
    ensures forall p :: p in r && Under(to, p) ==> from + p[|to|..] in tree && r[p] == tree[from + p[|to|..]]
  {
    var kept := map p | p in tree && !Under(from, p) && !Under(to, p) :: tree[p];
    var moved := Rerooted(tree, from, to);
    assert to == to + from[|from|..];
    assert Under(from, from);
    kept + moved
  }

  /** Renaming to the same name leaves the tree as it was. */
  lemma RelocatedToSelf(tree: Tree, p: Path)
    requires p in tree
    ensures Relocated(tree, p, p) == tree
  {
    var r := Relocated(tree, p, p);
    forall q | Under(p, q) ensures p + q[|p|..] == q {
      assert q == q[..|p|] + q[|p|..];
    }
    assert r.Keys == tree.Keys;
  }

  /**
   * renameTo: whether it succeeds is the host's answer; the code only adds that
   * there is something to rename.
   */
  predicate CanRename(tree: Tree, from: Path, host: Host)
  {
    host.renameOk && Exists(tree, from)
  }

  /** changeFileName: TOBE renames the staged name. */
  function Tobe(tree: Tree, current: Path, staged: Option<string>, newName: string, host: Host): Renamed
  {
    match staged
    case None => Renamed(tree, None, RENAME_UNSTAGED)
    case Some(staging) =>
      var from := Resolve(current, staging);
      var to := Resolve(current, newName);
      if CanRename(tree, from, host) then
        Renamed(Relocated(tree, Normalize(from), Normalize(to)), None,
                "+" + PathText(from) + " renamed to " + PathText(to))
      else Renamed(tree, staged, RENAME_FAILED)
  }

  /**
   * NAME then TOBE: the staged name is cleared only by a successful rename, which
   * puts the content under the new name; the old name is gone unless it lies
   * under the new one, and a rename to the same name changes nothing.
   */
  lemma NameTobe(tree: Tree, current: Path, name: string, newName: string, host: Host)
    ensures var n := Name(tree, current, name);
      var t := Tobe(n.tree, current, n.staged, newName, host);
      var from := Normalize(Resolve(current, name));
      var to := Normalize(Resolve(current, newName));
      && (n.staged.Some? <==> Exists(tree, Resolve(current, name)))
      && (t.staged.None? <==> n.staged.None? || CanRename(tree, Resolve(current, name), host))
      && (n.staged.Some? && t.staged.None? ==>
            && to in t.tree && t.tree[to] == tree[from]
            && (!Under(to, from) ==> from !in t.tree)
            && (from == to ==> t.tree == tree))
  {
    var from := Normalize(Resolve(current, name));
    var to := Normalize(Resolve(current, newName));
    if Exists(tree, Resolve(current, name)) && host.renameOk && from == to {
      RelocatedToSelf(tree, from);
    }
  }

  datatype Deleted = Deleted(tree: Tree, reply: string)

  /** deleteFile: KILL removes a leaf when the host allows it. */
  function Kill(tree: Tree, current: Path, name: string, host: Host): Deleted
  {
    var p := Resolve(current, name);
    if !Exists(tree, p) then Deleted(tree, DELETE_MISSING)
    else if host.deleteOk && IsLeaf(tree, p) then Deleted(tree - {Normalize(p)}, "+" + LastName(p) + " deleted")
    else Deleted(tree, DELETE_FAILED)
  }

  /** A missing file and a refused delete get different replies, and only a '+' reply removes anything. */
  lemma KillDistinguishes(tree: Tree, current: Path, name: string, host: Host)
    ensures var r := Kill(tree, current, name, host);
      && (r.reply == DELETE_MISSING <==> !Exists(tree, Resolve(current, name)))
      && (r.reply[0] == '+' <==> r.tree != tree)
      && (r.tree != tree ==> r.tree == tree - {Normalize(Resolve(current, name))})
  {
    var p := Resolve(current, name);
    var r := Kill(tree, current, name, host);
    var missing := DELETE_MISSING;
    if !Exists(tree, p) {
      assert r.reply == missing && r.reply[0] == '-';
    } else if host.deleteOk && IsLeaf(tree, p) {
      assert Normalize(p) in tree && Normalize(p) !in r.tree;
      assert r.reply == "+" + (LastName(p) + " deleted");
      assert r.reply[0] == '+' != missing[0];
    } else {
      var failed := DELETE_FAILED;
      assert r.reply == failed && failed[0] == '-';
      assert |failed| != |missing|;
    }
  }

  // ---- admission ----

  datatype Admitted = Admitted(reply: string, mode: Option<string>)

  const NO_ROOM := "-" + "Not enough room, don't send it"
  const NOT_SPECIFIED := "-" + "STOR operation was not specified"
  const WAITING := "+ok, waiting for file"

  /** checkFreeSpaceForSTOR(size) on a Java int; None where the mode is still null. */
  function Admit(mode: Option<string>, size: int): Option<Admitted>
  {
    match mode
    case None => None
    case Some(m) =>
      if m == "IDLE" then Some(Admitted(NOT_SPECIFIED, mode))
      else if FILE_SIZE_LIMIT > size then Some(Admitted(WAITING, mode))
      else Some(Admitted(NO_ROOM, Some("IDLE")))
  }

  /** A pending STOR is admitted exactly when the size is below the limit, and only a refusal drops it. */
  lemma AdmitBelowLimit(m: string, size: int)
    ensures var r := Admit(Some(m), size).value;
      && (m == "IDLE" ==> r.reply == NOT_SPECIFIED && r.mode == Some(m))
      && (m != "IDLE" ==> (r.reply == WAITING <==> size < FILE_SIZE_LIMIT))
      && (r.mode == Some(m) <==> size < FILE_SIZE_LIMIT || m == "IDLE")
  {
  }

  class FileSystem {
    /** The sandbox base: <user.dir>/resources/<base name>. */
    const base: Path
    var tree: Tree
    /** Kept as written, "." and ".." included. */
    var currentDir: Path
    var fileToSend: Option<Path>
    var fileToRename: Option<string>
    /** null until the first STOR (no IDLE at construction). */
    var currSTOR: Option<string>

    constructor (userDir: Path, baseName: string, disk: Tree)
      ensures base == userDir + ["resources"] + Segments(baseName)
      ensures tree == disk && currentDir == base
      ensures fileToSend == None && fileToRename == None && currSTOR == None
    {
      base := userDir + ["resources"] + Segments(baseName);
      tree := disk;
      currentDir := userDir + ["resources"] + Segments(baseName);
      fileToSend := None;
      fileToRename := None;
      currSTOR := None;
    }

    /** checkFileExists: in the current directory, or at the classified place under base. */
    predicate CheckFileExists(fileName: string, isWholeSystem: bool)
      reads this
    {
      if isWholeSystem then Exists(tree, StorePath(base, fileName))
      else Exists(tree, Resolve(currentDir, fileName))
    }

    /** listDir, building the reply line by line. */
    method ListDir(dir: string, mode: string, host: Host) returns (response: string)
      ensures response == Listing(tree, currentDir, dir, mode, host)
    {
      var p := Resolve(currentDir, dir);
      var d := Normalize(p);
      if !IsDir(tree, p) {
        response := "-Invalid Directory" + "\r\n";
        return;
      }
      var names := Listed(host, d);
      var lines := "";
      if mode == "F" {
        var i := 0;
        while i < |names|
          invariant 0 <= i <= |names|
          invariant lines == FLines(tree, d, names[..i])
        {
          assert names[..i + 1][..i] == names[..i];
          lines := lines + FLine(tree, d, names[i]);
          i := i + 1;
        }
        assert names[..i] == names;
      } else if mode == "V" {
        var i := 0;
        while i < |names|
          invariant 0 <= i <= |names|
          invariant lines == VLines(tree, d, names[..i], host)
        {
          assert names[..i + 1][..i] == names[..i];
          lines := lines + VLine(tree, d, names[i], host);
          i := i + 1;
        }
        assert names[..i] == names;
      }
      response := "\r\n+Contents" + lines + "\r\n";
    }

    /** changeCurrentDir: the scan assigns the directory entry by entry before it may reject. */
    method ChangeCurrentDir(dir: string, host: Host) returns (response: Option<string>)
      modifies this`currentDir
      ensures var r := ChangeDir(tree, base, old(currentDir), dir, host);
        && (r.None? ==> response.None? && currentDir == old(currentDir))
        && (r.Some? ==> response == Some(r.value.reply) && currentDir == r.value.dir)
    {
      var target: Path;
      if dir == ".." || dir == "../" {
        if currentDir == [] {
          return None;
        }
        target := currentDir[..|currentDir| - 1];
      } else if dir == "/" {
        target := base;
      } else {
        target := Resolve(currentDir, dir);
      }
      if !IsDir(tree, target) {
        return Some(NOT_A_DIR);
      }
      var names := Listed(host, Normalize(target));
      var reply := "";
      if |names| == 0 {
        currentDir := target;
        reply := "!Changed working dir to " + PathText(currentDir);
      } else {
        var i := 0;
        while i < |names|
          invariant 0 <= i <= |names|
          invariant forall j :: 0 <= j < i ==> !Forbidden(target, names[j])
          invariant currentDir == if i == 0 then old(currentDir) else target
          invariant i > 0 ==> reply == "!Changed working dir to " + PathText(target)
          invariant i == 0 ==> reply == ""
        {
          if Forbidden(target, names[i]) {
            reply := OUTSIDE;
            break;
          }
          currentDir := target;
          reply := "!Changed working dir to " + PathText(currentDir);
          i := i + 1;
        }
      }
      response := Some(reply);
    }

    /** checkFileName. */
    method CheckFileName(fileName: string) returns (response: string)
      modifies this`fileToRename
      ensures Name(tree, currentDir, fileName) == Renamed(tree, fileToRename, response)
    {
      if CheckFileExists(fileName, false) {
        response := "+File exists";
        fileToRename := Some(fileName);
      } else {
        response := "-Can't find " + fileName + NAME_ABORTED;
        fileToRename := None;
      }
    }

    /** changeFileName. */
    method ChangeFileName(newFileName: string, host: Host) returns (response: string)
      modifies this`tree, this`fileToRename
      ensures Tobe(old(tree), currentDir, old(fileToRename), newFileName, host) == Renamed(tree, fileToRename, response)
    {
      if fileToRename.Some? {
        var from := Resolve(currentDir, fileToRename.value);
        var to := Resolve(currentDir, newFileName);
        if CanRename(tree, from, host) {
          tree := Relocated(tree, Normalize(from), Normalize(to));
          response := "+" + PathText(from) + " renamed to " + PathText(to);
          fileToRename := None;
        } else {
          response := RENAME_FAILED;
        }
      } else {
        response := RENAME_UNSTAGED;
      }
    }

    /** deleteFile. */
    method DeleteFile(fileName: string, host: Host) returns (response: string)
      modifies this`tree
      ensures Kill(old(tree), currentDir, fileName, host) == Deleted(tree, response)
    {
      var p := Resolve(currentDir, fileName);
      if Exists(tree, p) {
        if host.deleteOk && IsLeaf(tree, p) {
          tree := tree - {Normalize(p)};
          response := "+" + LastName(p) + " deleted";
        } else {
          response := DELETE_FAILED;
        }
      } else {
        response := DELETE_MISSING;
      }
    }

    /** getRequestedFileSize. */
    method GetRequestedFileSize(fileName: string) returns (response: string)
      modifies this`fileToSend
      ensures Retr(tree, currentDir, fileName) == Staged(fileToSend, response)
    {
      var p := Resolve(currentDir, fileName);
      if Exists(tree, p) {
        response := NatToDecimal(Size(tree[Normalize(p)]));
        fileToSend := Some(p);
      } else {
        response := "-File doesn't exist";
        fileToSend := None;
      }
    }

    /** cancelSend: STOP. */
    method CancelSend() returns (response: string)
      modifies this`fileToSend
      ensures fileToSend == None
      ensures response == if old(fileToSend).Some? then "+ok, RETR aborted" else CANCEL_UNSTAGED
    {
      if fileToSend.Some? {
        fileToSend := None;
        response := "+ok, RETR aborted";
      } else {
        response := CANCEL_UNSTAGED;
      }
    }

    /** getFileToSend: the staged file, handed out once. */
    method GetFileToSend() returns (file: Option<Path>)
      modifies this`fileToSend
      ensures file == old(fileToSend) && fileToSend == None
    {
      file := fileToSend;
      fileToSend := None;
    }

    /** setFileOperation: STOR previews the save and records the mode; nothing is written. */
    method SetFileOperation(fileName: string, mode: string) returns (response: string)
      modifies this`currSTOR
      ensures currSTOR == Some(mode)
      ensures response == StorPreview(mode, CheckFileExists(fileName, true))
    {
      var doesFileExist := CheckFileExists(fileName, true);
      response := StorPreview(mode, doesFileExist);
      currSTOR := Some(mode);
    }

    /** checkFreeSpaceForSTOR. */
    method CheckFreeSpaceForSTOR(sizeInBytes: int) returns (response: Option<string>)
      modifies this`currSTOR
      ensures var r := Admit(old(currSTOR), sizeInBytes);
        && (r.None? ==> response.None? && currSTOR == old(currSTOR))
        && (r.Some? ==> response == Some(r.value.reply) && currSTOR == r.value.mode)
    {
      if currSTOR.None? {
        return None;
      }
      if currSTOR.value == "IDLE" {
        response := Some(NOT_SPECIFIED);
      } else if FILE_SIZE_LIMIT > sizeInBytes {
        response := Some(WAITING);
      } else {
        response := Some(NO_ROOM);
        currSTOR := Some("IDLE");
      }
    }

    /** processSTORSequence: saves the received bytes as the pending mode says. */
    method ProcessSTORSequence(fileBytes: seq<byte>, fileName: string, host: Host) returns (response: string)
      modifies this`tree, this`currSTOR
      ensures Saved(tree, response, currSTOR) == Save(old(tree), base, old(currSTOR), fileName, fileBytes, host)
    {
      var target := StorePath(base, fileName);
      if !Exists(tree, target) {
        response := Write(target, fileBytes, host);
      } else if currSTOR.None? {
        response := " -Couldn't save because " + host.errorText;
      } else if currSTOR.value == "IDLE" {
        response := SAVE_UNSPECIFIED;
      } else if currSTOR.value == "NEW" {
        response := SaveNewGeneration(fileBytes, fileName, host);
      } else if currSTOR.value == "OLD" {
        response := Write(target, fileBytes, host);
      } else if currSTOR.value == "APP" {
        if IsTextName(fileName) {
          response := Append(target, fileBytes, host);
        } else {
          response := SAVE_NOT_TEXT;
          currSTOR := Some("IDLE");
        }
      } else {
        response := "";
        currSTOR := Some("IDLE");
      }
    }

    /** The NEW case: probe new_0_, new_1_, … up to the limit and write the first free one. */
    method SaveNewGeneration(fileBytes: seq<byte>, fileName: string, host: Host) returns (response: string)
      modifies this`tree, this`currSTOR
      ensures Saved(tree, response, currSTOR) == NewOutcome(old(tree), base, old(currSTOR), fileName, fileBytes, host)
    {
      var i := 0;
      while i < NEW_FILE_LIMIT
        invariant 0 <= i <= NEW_FILE_LIMIT
        invariant forall j :: 0 <= j < i ==> Exists(tree, DedupPath(base, fileName, j))
        invariant tree == old(tree) && currSTOR == old(currSTOR)
      {
        var candidate := DedupName(i, fileName);
        if !CheckFileExists(candidate, true) {
          DedupKeepsClass(i, fileName);
          var path := base + [if IsTextName(fileName) then "text" else "other"] + Segments(candidate);
          assert path == DedupPath(base, fileName, i);
          assert FirstFree(tree, base, fileName, 0) == Some(i);
          response := Write(path, fileBytes, host);
          return;
        }
        i := i + 1;
      }
      assert FirstFree(tree, base, fileName, 0) == None;
      response := SAVE_LIMIT;
      currSTOR := Some("IDLE");
    }

    /** The APP case: the bytes go after the existing content. */
    method Append(p: Path, bytes: seq<byte>, host: Host) returns (response: string)
      modifies this`tree, this`currSTOR
      ensures Saved(tree, response, currSTOR) == AppendOutcome(old(tree), p, bytes, host, old(currSTOR))
    {
      if WriteFails(tree, p, host) || Normalize(p) !in tree {
        response := " -Couldn't save because " + host.errorText;
      } else {
        tree := tree[Normalize(p) := File(tree[Normalize(p)].data + bytes)];
        response := "+Saved " + PathText(p);
        currSTOR := Some("IDLE");
      }
    }

    /** Files.write inside the try block: success resets the mode, an exception keeps it. */
    method Write(p: Path, bytes: seq<byte>, host: Host) returns (response: string)
      modifies this`tree, this`currSTOR
      ensures Saved(tree, response, currSTOR) == WriteOutcome(old(tree), p, bytes, host, old(currSTOR))
    {
      if WriteFails(tree, p, host) {
        response := " -Couldn't save because " + host.errorText;
      } else {
        tree := tree[Normalize(p) := File(bytes)];
        response := "+Saved " + PathText(p);
        currSTOR := Some("IDLE");
      }
    }
  }
}
