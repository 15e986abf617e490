/** ZIP archives: one unpacking budget for a whole tree, the inventory of an archive, extraction. */
module Archive {
  import opened Text

  const MAX_UNPACKED_BYTES: nat := 256 * 1024 * 1024
  const MAX_ARCHIVE_MEMBER_BYTES: nat := 64 * 1024 * 1024
  const MAX_ARCHIVE_ENTRIES: nat := 500
  const MAX_ARCHIVE_DEPTH: nat := 4
  const ARCHIVE_BOMB_RATIO: nat := 100
  const CHUNK: nat := 1024 * 1024

  const EXECUTABLE_NAMES := {
    ".exe", ".scr", ".com", ".pif", ".cpl", ".dll", ".msi", ".msp",
    ".js", ".jse", ".vbs", ".vbe", ".wsf", ".wsh", ".hta", ".ps1",
    ".bat", ".cmd", ".lnk", ".jar", ".apk", ".reg", ".sh",
    ".iso", ".img", ".vhd", ".vhdx"}

  /** An entry of the central directory; `ext` is its lower-case extension, "" for none. */
  datatype Info = Info(name: string, ext: string, dir: bool, symlink: bool, encrypted: bool, knownMethod: bool, size: nat)

  predicate EscapesRoot(name: string) {
    var normalized := Replace(name, '\\', '/');
    || (normalized != "" && normalized[0] == '/')
    || (|normalized| > 1 && normalized[1] == ':')
    || ".." in Split(normalized, '/')
  }

  predicate IsOsMetadata(info: Info) {
    var parts := Split(Replace(info.name, '\\', '/'), '/');
    var base := parts[|parts| - 1];
    info.size <= CHUNK && (base == ".DS_Store" || (parts[0] == "__MACOSX" && "._" <= base))
  }

  function Files(infos: seq<Info>): seq<Info> {
    if infos == [] then []
    else (if infos[0].dir then [] else [infos[0]]) + Files(infos[1..])
  }

  // ----- the inventory -----

  datatype Budget = Budget(rootSize: nat, declared: nat, unpacked: nat, entries: nat)

  /** An entry to unpack and scan; `index` counts the files of the archive from 1. */
  datatype Member = Member(index: nat, info: Info)

  datatype Reason = Volume | TooDeep | UnknownMethod | TooLarge | TooMany

  datatype Inventory = Inventory(
    members: seq<Member>, problems: seq<string>, encrypted: bool, incomplete: seq<Reason>, bomb: bool)

  function Problem(problems: seq<string>, code: string): seq<string> {
    if code in problems then problems else problems + [code]
  }

  function Noted(problems: seq<string>, info: Info): seq<string> {
    var p1 := if EscapesRoot(info.name) then Problem(problems, "ARCHIVE_PATH_TRAVERSAL") else problems;
    var p2 := if info.symlink then Problem(p1, "ARCHIVE_SYMLINK") else p1;
    if info.ext in EXECUTABLE_NAMES then Problem(p2, "ARCHIVE_EXECUTABLE") else p2
  }

  function Problems(files: seq<Info>): seq<string> {
    if files == [] then [] else Noted(Problems(files[..|files| - 1]), files[|files| - 1])
  }

  predicate AnyEncrypted(files: seq<Info>) {
    exists i :: 0 <= i < |files| && files[i].encrypted
  }

  function Declared(files: seq<Info>): nat {
    if files == [] then 0 else Declared(files[..|files| - 1]) + files[|files| - 1].size
  }

  predicate IsBomb(b: Budget) {
    b.declared >= ARCHIVE_BOMB_RATIO * (if b.rootSize == 0 then 1 else b.rootSize)
  }

  /** What scanning has no use for: encrypted (reported as such), links, macOS metadata, empty. */
  predicate Skipped(info: Info) {
    info.encrypted || info.symlink || IsOsMetadata(info) || info.size == 0
  }

  datatype Selection = Selection(members: seq<Member>, incomplete: seq<Reason>, room: int, entries: nat, full: bool)

  function SelectOne(sel: Selection, index: nat, info: Info): Selection {
    if sel.full || Skipped(info) then sel
    else if !info.knownMethod then sel.(incomplete := sel.incomplete + [UnknownMethod])
    else if info.size > MAX_ARCHIVE_MEMBER_BYTES || info.size > sel.room then
      sel.(incomplete := sel.incomplete + [TooLarge])
    else if sel.entries >= MAX_ARCHIVE_ENTRIES then
      sel.(incomplete := sel.incomplete + [TooMany], full := true)
    else
      sel.(members := sel.members + [Member(index, info)], room := sel.room - info.size, entries := sel.entries + 1)
  }

  function Select(files: seq<Info>, room: int, entries: nat, incomplete: seq<Reason>): Selection {
    if files == [] then Selection([], incomplete, room, entries, false)
    else SelectOne(Select(files[..|files| - 1], room, entries, incomplete), |files|, files[|files| - 1])
  }

  /** The part of the inventory that the budget decides: what is selected, why not more, bomb or not. */
  datatype Selected = Selected(members: seq<Member>, incomplete: seq<Reason>, bomb: bool, budget: Budget)

  function Decide(files: seq<Info>, b: Budget, depth: nat, collect: bool): Selected {
    var b' := b.(declared := b.declared + Declared(files));
    var over := b'.declared > MAX_UNPACKED_BYTES;
    var incomplete := if over then [Volume] else [];
    if over && IsBomb(b') then Selected([], [], true, b')
    else if !collect then Selected([], incomplete, false, b')
    else if depth > MAX_ARCHIVE_DEPTH then Selected([], incomplete + [TooDeep], false, b')
    else
      var sel := Select(files, MAX_UNPACKED_BYTES - b.declared, b.entries, incomplete);
      Selected(sel.members, sel.incomplete, false, b'.(entries := sel.entries))
  }

  function AllProblems(files: seq<Info>, bomb: bool): seq<string> {
    var named := if AnyEncrypted(files) then Problem(Problems(files), "ARCHIVE_ENCRYPTED") else Problems(files);
    if bomb then Problem(named, "ARCHIVE_BOMB") else named
  }

  function Inspected(files: seq<Info>, b: Budget, depth: nat, collect: bool): (Inventory, Budget) {
    var s := Decide(files, b, depth, collect);
    (Inventory(s.members, AllProblems(files, s.bomb), AnyEncrypted(files), s.incomplete, s.bomb), s.budget)
  }

  class UnpackBudget {
    const rootSize: nat
    var declared: nat
    var unpacked: nat
    var entries: nat

    constructor (rootSize: nat)
      ensures State() == Budget(rootSize, 0, 0, 0)
    {
      this.rootSize := rootSize;
      declared, unpacked, entries := 0, 0, 0;
    }

    function State(): Budget
      reads this
    {
      Budget(rootSize, declared, unpacked, entries)
    }
  }

  method NoteProblems(files: seq<Info>) returns (problems: seq<string>, encrypted: bool)
    ensures encrypted == AnyEncrypted(files)
    ensures problems == AllProblems(files, false)
  {
    problems, encrypted := [], false;
    for i := 0 to |files|
      invariant problems == Problems(files[..i])
      invariant encrypted == AnyEncrypted(files[..i])
    {
      assert files[..i + 1][..i] == files[..i];
      problems := Noted(problems, files[i]);
      if files[i].encrypted {
        assert files[..i + 1][i].encrypted;
        encrypted := true;
      }
    }
    assert files[..|files|] == files;
    if encrypted {
      problems := Problem(problems, "ARCHIVE_ENCRYPTED");
    }
  }

  method DeclaredBytes(files: seq<Info>) returns (declared: nat)
    ensures declared == Declared(files)
  {
    declared := 0;
    for i := 0 to |files|
      invariant declared == Declared(files[..i])
    {
      assert files[..i + 1][..i] == files[..i];
      declared := declared + files[i].size;
    }
    assert files[..|files|] == files;
  }

  method SelectMembers(files: seq<Info>, budget: UnpackBudget, room0: int, reasons: seq<Reason>)
    returns (members: seq<Member>, incomplete: seq<Reason>)
    modifies budget`entries
    ensures var sel := Select(files, room0, old(budget.entries), reasons);
            members == sel.members && incomplete == sel.incomplete && budget.entries == sel.entries
  {
    var room := room0;
    members, incomplete := [], reasons;
    var i, full := 0, false;
    while i < |files| && !full
      invariant i <= |files|
      invariant Selection(members, incomplete, room, budget.entries, full)
                == Select(files[..i], room0, old(budget.entries), reasons)
    {
      assert files[..i + 1][..i] == files[..i];
      var info := files[i];
      i := i + 1;
      if Skipped(info) {
      } else if !info.knownMethod {
        incomplete := incomplete + [UnknownMethod];
      } else if info.size > MAX_ARCHIVE_MEMBER_BYTES || info.size > room {
        incomplete := incomplete + [TooLarge];
      } else if budget.entries >= MAX_ARCHIVE_ENTRIES {
        incomplete := incomplete + [TooMany];
        full := true;
      } else {
        budget.entries := budget.entries + 1;
        room := room - info.size;
        members := members + [Member(i, info)];
      }
    }
    if full {
      SelectStaysFull(files, i, room0, old(budget.entries), reasons);
    } else {
      assert files[..i] == files;
    }
  }

  method Inspect(files: seq<Info>, budget: UnpackBudget, depth: nat, collect: bool) returns (inventory: Inventory)
    modifies budget
    ensures (inventory, budget.State()) == Inspected(files, old(budget.State()), depth, collect)
  {
    var problems, encrypted := NoteProblems(files);
    var declared := DeclaredBytes(files);
    budget.declared := budget.declared + declared;
    var incomplete := [];
    if budget.declared > MAX_UNPACKED_BYTES {
      if IsBomb(budget.State()) {
        return Inventory([], Problem(problems, "ARCHIVE_BOMB"), encrypted, [], true);
      }
      incomplete := [Volume];
    }
    if !collect {
      return Inventory([], problems, encrypted, incomplete, false);
    }
    if depth > MAX_ARCHIVE_DEPTH {
      return Inventory([], problems, encrypted, incomplete + [TooDeep], false);
    }
    var room: int := MAX_UNPACKED_BYTES - (budget.declared - declared);
    var members, reasons := SelectMembers(files, budget, room, incomplete);
    inventory := Inventory(members, problems, encrypted, reasons, false);
  }

  lemma {:induction false} SelectStaysFull(files: seq<Info>, i: nat, room: int, entries: nat, incomplete: seq<Reason>)
    requires i <= |files| && Select(files[..i], room, entries, incomplete).full
    ensures Select(files, room, entries, incomplete) == Select(files[..i], room, entries, incomplete)
  {
    if i == |files| {
      assert files[..i] == files;
    } else {
      assert files[..|files| - 1][..i] == files[..i];
      SelectStaysFull(files[..|files| - 1], i, room, entries, incomplete);
    }
  }

  // ----- what the inventory guarantees -----

  function Bytes(members: seq<Member>): nat {
    if members == [] then 0 else Bytes(members[..|members| - 1]) + members[|members| - 1].info.size
  }

  predicate Selectable(m: Member) {
    !Skipped(m.info) && m.info.knownMethod && m.info.size <= MAX_ARCHIVE_MEMBER_BYTES
  }

  lemma {:induction false} SelectWithinRoom(files: seq<Info>, room: int, entries: nat, incomplete: seq<Reason>)
    requires entries <= MAX_ARCHIVE_ENTRIES
    ensures var sel := Select(files, room, entries, incomplete);
            && sel.entries == entries + |sel.members| <= MAX_ARCHIVE_ENTRIES
            && sel.room == room - Bytes(sel.members)
            && (sel.members != [] ==> 0 <= sel.room)
            && Bytes(sel.members) <= Declared(files)
            && incomplete <= sel.incomplete
  {
    if files != [] {
      var n := |files| - 1;
      SelectWithinRoom(files[..n], room, entries, incomplete);
      var before := Select(files[..n], room, entries, incomplete);
      assert (before.members + [Member(|files|, files[n])])[..|before.members|] == before.members;
    }
  }

  predicate NamesFile(m: Member, files: seq<Info>) {
    1 <= m.index <= |files| && m.info == files[m.index - 1]
  }

  predicate AllNameFiles(members: seq<Member>, files: seq<Info>) {
    forall k :: 0 <= k < |members| ==> NamesFile(members[k], files) && Selectable(members[k])
  }

  /** Members name the files they were made from and are fit for scanning. */
  lemma {:induction false} SelectNamesFiles(files: seq<Info>, room: int, entries: nat, incomplete: seq<Reason>)
    ensures AllNameFiles(Select(files, room, entries, incomplete).members, files)
  {
    if files != [] {
      var n := |files| - 1;
      SelectNamesFiles(files[..n], room, entries, incomplete);
      var before := Select(files[..n], room, entries, incomplete);
      assert forall k :: 0 <= k < |before.members| ==> NamesFile(before.members[k], files[..n]) ==> NamesFile(before.members[k], files);
    }
  }

  /** Nothing is left out silently: with no reason given, every file that is not skipped is a member. */
  lemma {:induction false} SelectIsComplete(files: seq<Info>, room: int, entries: nat, i: nat)
    requires i < |files| && !Skipped(files[i])
    requires Select(files, room, entries, []).incomplete == []
    ensures Member(i + 1, files[i]) in Select(files, room, entries, []).members
    ensures !Select(files, room, entries, []).full
  {
    var init := files[..|files| - 1];
    FullHasReason(init, room, entries);
    if i < |files| - 1 {
      SelectIsComplete(init, room, entries, i);
    }
  }

  lemma {:induction false} FullHasReason(files: seq<Info>, room: int, entries: nat)
    ensures Select(files, room, entries, []).full ==> Select(files, room, entries, []).incomplete != []
  {
    if files != [] {
      FullHasReason(files[..|files| - 1], room, entries);
    }
  }

  /** What makes an archive bear a code, entry by entry. */
  predicate Deserves(info: Info, code: string) {
    || (code == "ARCHIVE_PATH_TRAVERSAL" && EscapesRoot(info.name))
    || (code == "ARCHIVE_SYMLINK" && info.symlink)
    || (code == "ARCHIVE_EXECUTABLE" && info.ext in EXECUTABLE_NAMES)
    || (code == "ARCHIVE_ENCRYPTED" && info.encrypted)
  }

  predicate SomeDeserves(files: seq<Info>, code: string) {
    exists i :: 0 <= i < |files| && Deserves(files[i], code)
  }

  lemma SomeDeservesLast(files: seq<Info>, code: string)
    requires files != []
    ensures SomeDeserves(files, code) <==> SomeDeserves(files[..|files| - 1], code) || Deserves(files[|files| - 1], code)
  {
    hide Deserves;
    var front := files[..|files| - 1];
    if SomeDeserves(front, code) {
      var i :| 0 <= i < |front| && Deserves(front[i], code);
      assert Deserves(files[i], code);
    }
    if SomeDeserves(files, code) {
      var i :| 0 <= i < |files| && Deserves(files[i], code);
      assert i < |front| ==> Deserves(front[i], code);
    }
  }

  lemma {:induction false} ProblemsAreDeserved(files: seq<Info>, code: string)
    requires code != "ARCHIVE_ENCRYPTED"
    ensures code in Problems(files) <==> SomeDeserves(files, code)
  {
    hide EscapesRoot;
    if files != [] {
      ProblemsAreDeserved(files[..|files| - 1], code);
      SomeDeservesLast(files, code);
      hide SomeDeserves;
      assert code in Noted(Problems(files[..|files| - 1]), files[|files| - 1]) <==>
             code in Problems(files[..|files| - 1]) || Deserves(files[|files| - 1], code);
    }
  }

  lemma {:induction false} NoProblemIsEncrypted(files: seq<Info>)
    ensures "ARCHIVE_ENCRYPTED" !in Problems(files)
  {
    if files != [] { NoProblemIsEncrypted(files[..|files| - 1]); }
  }

  /** Which codes an inventory reports: for a name that leads out of the archive, a link, a program, an encrypted
      entry, each its own; and the code of a bomb. */
  lemma ProblemsExactly(files: seq<Info>, bomb: bool, code: string)
    ensures code in AllProblems(files, bomb) <==> SomeDeserves(files, code) || (bomb && code == "ARCHIVE_BOMB")
    ensures AnyEncrypted(files) <==> SomeDeserves(files, "ARCHIVE_ENCRYPTED")
  {
    hide EscapesRoot;
    if code != "ARCHIVE_ENCRYPTED" {
      ProblemsAreDeserved(files, code);
    }
    NoProblemIsEncrypted(files);
    hide Problems;
    assert AnyEncrypted(files) <==> SomeDeserves(files, "ARCHIVE_ENCRYPTED") by {
      if SomeDeserves(files, "ARCHIVE_ENCRYPTED") {
        var i :| 0 <= i < |files| && Deserves(files[i], "ARCHIVE_ENCRYPTED");
        assert files[i].encrypted;
      }
      if AnyEncrypted(files) {
        var i :| 0 <= i < |files| && files[i].encrypted;
        assert Deserves(files[i], "ARCHIVE_ENCRYPTED");
      }
    }
  }

  // ----- names -----

  predicate IsSlash(c: char) { c == '/' || c == '\\' }

  /** A component of a path stands from `p` to `q`, whichever way the slashes lean. */
  predicate ComponentAt(name: string, p: int, q: int) {
    && 0 <= p <= q <= |name| && (p == 0 || IsSlash(name[p - 1])) && (q == |name| || IsSlash(name[q]))
    && forall i :: p <= i < q ==> !IsSlash(name[i])
  }

  lemma ComponentsAreParts(name: string, p: int, q: int)
    ensures var normalized := Replace(name, '\\', '/');
            && (ComponentAt(name, p, q) <==> PartAt(normalized, '/', p, q))
            && (ComponentAt(name, p, q) ==> normalized[p..q] == name[p..q])
  {
    var normalized := Replace(name, '\\', '/');
    assert forall i :: 0 <= i < |name| ==> (normalized[i] == '/' <==> IsSlash(name[i]));
    if ComponentAt(name, p, q) {
      assert forall i :: p <= i < q ==> !IsSlash(name[i]) && normalized[i] == name[i];
    }
  }

  ghost predicate HasComponent(name: string, part: string) {
    exists p: int, q: int :: ComponentAt(name, p, q) && name[p..q] == part
  }

  lemma HasComponentExactly(name: string, part: string)
    ensures HasComponent(name, part) <==> part in Split(Replace(name, '\\', '/'), '/')
  {
    var normalized := Replace(name, '\\', '/');
    PartsExactly(normalized, '/', part);
    hide Split;
    hide Replace;
    if HasComponent(name, part) {
      var p, q :| ComponentAt(name, p, q) && name[p..q] == part;
      ComponentsAreParts(name, p, q);
    }
    if HasPart(normalized, '/', part) {
      var p: nat, q: nat :| PartAt(normalized, '/', p, q) && normalized[p..q] == part;
      ComponentsAreParts(name, p, q);
    }
  }

  /** Which names lead out of the archive: those that begin with a slash, have a colon in the second place, or go up. */
  lemma EscapesExactly(name: string)
    ensures EscapesRoot(name) <==>
            (name != "" && IsSlash(name[0])) || (|name| > 1 && name[1] == ':') || HasComponent(name, "..")
  {
    HasComponentExactly(name, "..");
    hide Split;
    hide HasComponent;
  }

  ghost predicate FirstComponentIs(name: string, part: string) { exists q: int :: ComponentAt(name, 0, q) && name[..q] == part }

  ghost predicate LastComponentStarts(name: string, start: string) {
    exists p: int :: ComponentAt(name, p, |name|) && start <= name[p..]
  }

  ghost predicate LastComponentIs(name: string, part: string) {
    exists p: int :: ComponentAt(name, p, |name|) && name[p..] == part
  }

  lemma FirstComponentExactly(name: string, part: string)
    ensures FirstComponentIs(name, part) <==> Split(Replace(name, '\\', '/'), '/')[0] == part
  {
    var normalized := Replace(name, '\\', '/');
    EndParts(normalized, '/', part);
    hide Split;
    hide Replace;
    if FirstComponentIs(name, part) {
      var q :| ComponentAt(name, 0, q) && name[..q] == part;
      ComponentsAreParts(name, 0, q);
      assert name[0..q] == name[..q] && normalized[0..q] == normalized[..q];
    }
    if FirstPartIs(normalized, '/', part) {
      var q: nat :| PartAt(normalized, '/', 0, q) && normalized[..q] == part;
      ComponentsAreParts(name, 0, q);
      assert name[0..q] == name[..q] && normalized[0..q] == normalized[..q];
    }
  }

  lemma LastComponentExactly(name: string, part: string)
    ensures var parts := Split(Replace(name, '\\', '/'), '/');
            LastComponentIs(name, part) <==> parts[|parts| - 1] == part
  {
    var normalized := Replace(name, '\\', '/');
    EndParts(normalized, '/', part);
    hide Split;
    hide Replace;
    if LastComponentIs(name, part) {
      var p :| ComponentAt(name, p, |name|) && name[p..] == part;
      ComponentsAreParts(name, p, |name|);
      assert name[p..|name|] == name[p..] && normalized[p..|name|] == normalized[p..];
    }
    if LastPartIs(normalized, '/', part) {
      var p: nat :| PartAt(normalized, '/', p, |normalized|) && normalized[p..] == part;
      ComponentsAreParts(name, p, |name|);
      assert name[p..|name|] == name[p..] && normalized[p..|name|] == normalized[p..];
    }
  }

  /** What counts as the archiver's own: small, and a `.DS_Store` anywhere, or under `__MACOSX` with a name in `._`. */
  lemma MetadataExactly(info: Info)
    ensures IsOsMetadata(info) <==>
            && info.size <= 1048576
            && (LastComponentIs(info.name, ".DS_Store")
                || (FirstComponentIs(info.name, "__MACOSX") && LastComponentStarts(info.name, "._")))
  {
    var parts := Split(Replace(info.name, '\\', '/'), '/');
    var base := parts[|parts| - 1];
    FirstComponentExactly(info.name, "__MACOSX");
    LastComponentExactly(info.name, ".DS_Store");
    LastComponentExactly(info.name, base);
    if LastComponentStarts(info.name, "._") {
      var p :| ComponentAt(info.name, p, |info.name|) && "._" <= info.name[p..];
      LastComponentExactly(info.name, info.name[p..]);
    }
  }

  // ----- which files are selected -----

  /** Needs scanning: readable as it is, no link, not the archiver's own, not empty. */
  predicate NeedsScan(info: Info) {
    !info.encrypted && !info.symlink && !IsOsMetadata(info) && info.size > 0
  }

  lemma {:induction false} FullIsFull(files: seq<Info>, room: int, entries: nat, incomplete: seq<Reason>)
    ensures var sel := Select(files, room, entries, incomplete);
            && sel.entries == entries + |sel.members| && sel.room == room - Bytes(sel.members)
            && (sel.full ==> sel.entries >= MAX_ARCHIVE_ENTRIES)
  {
    hide IsOsMetadata;
    if files != [] {
      var n := |files| - 1;
      FullIsFull(files[..n], room, entries, incomplete);
      var before := Select(files[..n], room, entries, incomplete);
      assert (before.members + [Member(|files|, files[n])])[..|before.members|] == before.members;
    }
  }

  lemma {:induction false} SelectedBefore(files: seq<Info>, n: nat, room: int, entries: nat, incomplete: seq<Reason>)
    requires n <= |files|
    ensures var sel := Select(files, room, entries, incomplete).members;
            var before := Select(files[..n], room, entries, incomplete).members;
            before <= sel && forall k :: |before| <= k < |sel| ==> sel[k].index > n
  {
    hide Skipped;
    if n == |files| {
      assert files[..n] == files;
    } else {
      var init := files[..|files| - 1];
      SelectedBefore(init, n, room, entries, incomplete);
      assert init[..n] == files[..n];
    }
  }

  /** Which files of an archive are unpacked and scanned: those that need scanning, can be read, are within the limit
      for one file and within what the files selected before them leave of the limits on bytes and entries. */
  lemma SelectedExactly(files: seq<Info>, i: nat, room: int, entries: nat, incomplete: seq<Reason>)
    requires i < |files|
    ensures var before := Select(files[..i], room, entries, incomplete).members;
            (exists m :: m in Select(files, room, entries, incomplete).members && m.index == i + 1) <==>
              && NeedsScan(files[i]) && files[i].knownMethod && files[i].size <= MAX_ARCHIVE_MEMBER_BYTES
              && Bytes(before) + files[i].size <= room && entries + |before| < MAX_ARCHIVE_ENTRIES
  {
    var sel := Select(files, room, entries, incomplete).members;
    var before := Select(files[..i], room, entries, incomplete);
    var after := Select(files[..i + 1], room, entries, incomplete);
    assert files[..i + 1][..i] == files[..i];
    assert after == SelectOne(before, i + 1, files[i]);
    FullIsFull(files[..i], room, entries, incomplete);
    SelectedBefore(files, i + 1, room, entries, incomplete);
    SelectNamesFiles(files[..i], room, entries, incomplete);
    hide IsOsMetadata;
    hide Select;
    hide Bytes;
    hide Selectable;
    assert forall k :: 0 <= k < |before.members| ==> NamesFile(before.members[k], files[..i]);
    if after.members != before.members {
      assert sel[|before.members|] == Member(i + 1, files[i]);
      assert sel[|before.members|] in sel;
    }
  }

  /** Whether something was left out is told, and only then. */
  lemma {:induction false} IncompleteExactly(files: seq<Info>, room: int, entries: nat, incomplete: seq<Reason>)
    ensures var sel := Select(files, room, entries, incomplete);
            && incomplete <= sel.incomplete
            && (sel.incomplete == incomplete <==> |sel.members| == Count(files))
            && |sel.members| <= Count(files) && (sel.full ==> sel.incomplete != incomplete)
  {
    hide IsOsMetadata;
    if files != [] {
      IncompleteExactly(files[..|files| - 1], room, entries, incomplete);
    }
  }

  /** What keeps file number `i`, counted from 0, from being scanned though it should be, as things stand then. */
  function WhyNot(files: seq<Info>, i: nat, room: int, entries: nat, incomplete: seq<Reason>): set<Reason>
    requires i < |files|
  {
    var before := Select(files[..i], room, entries, incomplete).members;
    if !NeedsScan(files[i]) then {}
    else if !files[i].knownMethod then {UnknownMethod}
    else if files[i].size > MAX_ARCHIVE_MEMBER_BYTES || Bytes(before) + files[i].size > room then {TooLarge}
    else if entries + |before| >= MAX_ARCHIVE_ENTRIES then {TooMany}
    else {}
  }

  /** Nothing ends the selection before file number `i`. */
  ghost predicate Reached(files: seq<Info>, i: nat, room: int, entries: nat, incomplete: seq<Reason>)
    requires i <= |files|
  {
    forall j :: 0 <= j < i ==> TooMany !in WhyNot(files, j, room, entries, incomplete)
  }

  lemma WhyNotInPart(files: seq<Info>, n: nat, room: int, entries: nat, incomplete: seq<Reason>)
    requires n <= |files|
    ensures forall i :: 0 <= i < n ==> WhyNot(files[..n], i, room, entries, incomplete) == WhyNot(files, i, room, entries, incomplete)
  {
    forall i | 0 <= i < n
      ensures WhyNot(files[..n], i, room, entries, incomplete) == WhyNot(files, i, room, entries, incomplete)
    {
      assert files[..n][..i] == files[..i];
    }
  }

  lemma LastTells(files: seq<Info>, room: int, entries: nat, incomplete: seq<Reason>)
    requires files != []
    ensures var n := |files| - 1;
            var before, after := Select(files[..n], room, entries, incomplete), Select(files, room, entries, incomplete);
            var why := WhyNot(files, n, room, entries, incomplete);
            if before.full || why == {} then after.incomplete == before.incomplete && after.full == before.full
            else exists r :: why == {r} && after.incomplete == before.incomplete + [r] && after.full == (r == TooMany)
  {
    var n := |files| - 1;
    FullIsFull(files[..n], room, entries, incomplete);
    assert Select(files, room, entries, incomplete) == SelectOne(Select(files[..n], room, entries, incomplete), n + 1, files[n]);
    hide Select;
    hide Bytes;
    hide IsOsMetadata;
  }

  ghost predicate TellsAt(files: seq<Info>, i: nat, room: int, entries: nat, incomplete: seq<Reason>, r: Reason)
    requires i < |files|
  {
    r in WhyNot(files, i, room, entries, incomplete) && Reached(files, i, room, entries, incomplete)
  }

  lemma {:induction false} FullExactly(files: seq<Info>, room: int, entries: nat, incomplete: seq<Reason>)
    ensures var sel := Select(files, room, entries, incomplete);
            && incomplete <= sel.incomplete
            && (sel.full <==> !Reached(files, |files|, room, entries, incomplete))
            && (forall k :: |incomplete| <= k < |sel.incomplete| && sel.incomplete[k] == TooMany ==> sel.full && k == |sel.incomplete| - 1)
  {
    if files != [] {
      var n := |files| - 1;
      FullExactly(files[..n], room, entries, incomplete);
      LastTells(files, room, entries, incomplete);
      WhyNotInPart(files, n, room, entries, incomplete);
      hide Select;
      hide WhyNot;
    }
  }

  /** Which reasons are told: those of the files up to the first for which there is no room among the entries, which
      ends the selection. */
  lemma {:induction false} ReasonsExactly(files: seq<Info>, room: int, entries: nat, incomplete: seq<Reason>, r: Reason)
    ensures var told := Select(files, room, entries, incomplete).incomplete;
            && incomplete <= told
            && (r in told[|incomplete|..] <==> exists i :: 0 <= i < |files| && TellsAt(files, i, room, entries, incomplete, r))
            && (forall k :: |incomplete| <= k < |told| && told[k] == TooMany ==> k == |told| - 1)
  {
    FullExactly(files, room, entries, incomplete);
    if files != [] {
      var n := |files| - 1;
      ReasonsExactly(files[..n], room, entries, incomplete, r);
      FullExactly(files[..n], room, entries, incomplete);
      LastTells(files, room, entries, incomplete);
      TellsInPart(files, n, room, entries, incomplete, r);
      var before := Select(files[..n], room, entries, incomplete);
      assert forall last :: (before.incomplete + [last])[|incomplete|..] == before.incomplete[|incomplete|..] + [last];
      assert TellsAt(files, n, room, entries, incomplete, r) <==> r in WhyNot(files, n, room, entries, incomplete) && !before.full;
      hide Select;
      hide TellsAt;
      hide WhyNot;
    }
  }

  lemma TellsInPart(files: seq<Info>, n: nat, room: int, entries: nat, incomplete: seq<Reason>, r: Reason)
    requires n <= |files|
    ensures Reached(files[..n], n, room, entries, incomplete) == Reached(files, n, room, entries, incomplete)
    ensures forall i :: 0 <= i < n ==> TellsAt(files[..n], i, room, entries, incomplete, r) == TellsAt(files, i, room, entries, incomplete, r)
  {
    WhyNotInPart(files, n, room, entries, incomplete);
    hide WhyNot;
  }

  /** How many files need scanning. */
  function Count(files: seq<Info>): nat {
    if files == [] then 0 else Count(files[..|files| - 1]) + if NeedsScan(files[|files| - 1]) then 1 else 0
  }

  // ----- what is declared -----

  lemma {:induction false} DeclaredInTwo(a: seq<Info>, b: seq<Info>)
    ensures Declared(a + b) == Declared(a) + Declared(b)
  {
    if b == [] {
      assert a + b == a;
    } else {
      assert (a + b)[..|a + b| - 1] == a + b[..|b| - 1];
      DeclaredInTwo(a, b[..|b| - 1]);
    }
  }

  /** Every file counts with the size it declares, in whatever order. */
  lemma DeclaredCounts(before: seq<Info>, info: Info, after: seq<Info>)
    ensures Declared(before + [info] + after) == Declared(before) + info.size + Declared(after)
  {
    DeclaredInTwo(before, [info]);
    DeclaredInTwo(before + [info], after);
    assert [info][..0] == [];
    assert Declared([info]) == Declared([info][..0]) + info.size;
  }

  lemma {:induction false} FilesInTwo(a: seq<Info>, b: seq<Info>)
    ensures Files(a + b) == Files(a) + Files(b)
  {
    if a == [] {
      assert a + b == b;
    } else {
      assert (a + b)[1..] == a[1..] + b;
      FilesInTwo(a[1..], b);
    }
  }

  /** Entries other than directories are the files, in their order. */
  lemma FilesCount(before: seq<Info>, info: Info, after: seq<Info>)
    ensures Files(before + [info] + after) == Files(before) + (if info.dir then [] else [info]) + Files(after)
  {
    FilesInTwo(before, [info]);
    FilesInTwo(before + [info], after);
    assert [info][1..] == [];
    assert Files([info][1..]) == [];
  }

  /** What the budget decides: a bomb declares, with all that was declared before, more than the limit and a hundred
      times the file given; otherwise it is told when the limit is passed and when the archive lies too deep. */
  lemma DecidedExactly(files: seq<Info>, b: Budget, depth: nat, collect: bool)
    ensures var s := Decide(files, b, depth, collect);
            var all := b.declared + Declared(files);
            && (s.bomb <==> all > 268435456 && (if b.rootSize == 0 then all >= 100 else all >= 100 * b.rootSize))
            && (Volume in s.incomplete <==> all > 268435456 && !s.bomb)
            && (TooDeep in s.incomplete <==> collect && depth > 4 && !s.bomb)
            && (s.members != [] ==> collect && depth <= 4 && !s.bomb)
            && s.budget.declared == all
  {
    hide Declared;
    var over := b.declared + Declared(files) > MAX_UNPACKED_BYTES;
    var room := MAX_UNPACKED_BYTES - b.declared;
    ReasonsOfFiles(files, room, b.entries, []);
    ReasonsOfFiles(files, room, b.entries, [Volume]);
    hide Select;
  }

  lemma {:induction false} ReasonsOfFiles(files: seq<Info>, room: int, entries: nat, incomplete: seq<Reason>)
    ensures var told := Select(files, room, entries, incomplete).incomplete;
            (Volume in told <==> Volume in incomplete) && (TooDeep in told <==> TooDeep in incomplete)
  {
    hide Skipped;
    if files != [] {
      ReasonsOfFiles(files[..|files| - 1], room, entries, incomplete);
    }
  }

  // ----- extraction -----

  /** What unpacking an entry yields: chunks of real bytes, then the end of the stream or an error. */
  datatype Stream = Stream(chunks: seq<nat>, complete: bool)

  predicate ValidStream(s: Stream) { forall i :: 0 <= i < |s.chunks| ==> 0 < s.chunks[i] <= CHUNK }

  datatype Outcome = Extracted | OverBudget | Unreadable

  /** Outcome, bytes counted, bytes written to the destination. */
  function Pull(chunks: seq<nat>, complete: bool, size: nat, unpacked: nat, written: nat): (Outcome, nat, nat) {
    if chunks == [] then (if complete then Extracted else Unreadable, written, written)
    else if written + chunks[0] > size || unpacked + written + chunks[0] > MAX_UNPACKED_BYTES then
      (OverBudget, written + chunks[0], written)
    else Pull(chunks[1..], complete, size, unpacked, written + chunks[0])
  }

  method Extract(size: nat, stream: Stream, budget: UnpackBudget) returns (outcome: Outcome, out: nat)
    modifies budget`unpacked
    ensures var pulled := Pull(stream.chunks, stream.complete, size, old(budget.unpacked), 0);
            && outcome == pulled.0 && out == pulled.2
            && budget.unpacked == old(budget.unpacked) + pulled.1
  {
    var written, i := 0, 0;
    out := 0;
    while i < |stream.chunks|
      invariant i <= |stream.chunks| && written == out
      invariant Pull(stream.chunks[i..], stream.complete, size, budget.unpacked, written)
                == Pull(stream.chunks, stream.complete, size, budget.unpacked, 0)
    {
      written := written + stream.chunks[i];
      if written > size || budget.unpacked + written > MAX_UNPACKED_BYTES {
        budget.unpacked := budget.unpacked + written;
        return OverBudget, out;
      }
      assert stream.chunks[i..][1..] == stream.chunks[i + 1..];
      out := written;
      i := i + 1;
    }
    outcome := if stream.complete then Extracted else Unreadable;
    budget.unpacked := budget.unpacked + written;
  }

  function Total(chunks: seq<nat>): nat {
    if chunks == [] then 0 else chunks[0] + Total(chunks[1..])
  }

  /** An extraction succeeds exactly when the stream ends well, is no longer than declared and fits. */
  lemma {:induction false} ExtractedExactly(chunks: seq<nat>, complete: bool, size: nat, unpacked: nat, written: nat)
    requires written <= size && unpacked + written <= MAX_UNPACKED_BYTES
    ensures var pulled := Pull(chunks, complete, size, unpacked, written);
            pulled.0 == Extracted <==>
              complete && written + Total(chunks) <= size && unpacked + written + Total(chunks) <= MAX_UNPACKED_BYTES
    ensures var pulled := Pull(chunks, complete, size, unpacked, written);
            pulled.0 == Extracted ==> pulled.1 == pulled.2 == written + Total(chunks)
  {
    if chunks != [] && written + chunks[0] <= size && unpacked + written + chunks[0] <= MAX_UNPACKED_BYTES {
      ExtractedExactly(chunks[1..], complete, size, unpacked, written + chunks[0]);
    }
  }

  /** How far an extraction may go: the size declared, and what is left of the budget. */
  predicate Fits(bytes: nat, size: nat, unpacked: nat) {
    bytes <= size && unpacked + bytes <= MAX_UNPACKED_BYTES
  }

  /** What an extraction answers, counts and writes: everything of a stream that fits; of one that does not, the chunks
      that fit are written, and the next is counted as well. A stream that breaks off is unreadable if it fits, and an
      empty one always does. */
  lemma {:induction false} PulledExactly(chunks: seq<nat>, complete: bool, size: nat, unpacked: nat, written: nat)
    returns (n: nat)
    ensures var (outcome, counted, out) := Pull(chunks, complete, size, unpacked, written);
            && n <= |chunks| && out == written + Total(chunks[..n]) && (n > 0 ==> Fits(out, size, unpacked))
            && (if chunks == [] || Fits(written + Total(chunks), size, unpacked)
                then n == |chunks| && counted == out && outcome == (if complete then Extracted else Unreadable)
                else n < |chunks| && counted == out + chunks[n] && !Fits(counted, size, unpacked) && outcome == OverBudget)
  {
    if chunks == [] || !Fits(written + chunks[0], size, unpacked) {
      n := 0;
      assert Total(chunks[..0]) == 0;
    } else {
      var m := PulledExactly(chunks[1..], complete, size, unpacked, written + chunks[0]);
      n := m + 1;
      assert chunks[..n][1..] == chunks[1..][..m];
      assert Total(chunks[..n]) == chunks[0] + Total(chunks[1..][..m]);
    }
    assert chunks[..|chunks|] == chunks;
  }

  // ----- one budget for the whole tree -----

  /** The budget together with what has happened under it: bytes of the members selected so far,
      bytes written out, and extractions refused. */
  datatype Ledger = Ledger(budget: Budget, selected: nat, written: nat, refused: nat)

  predicate Within(l: Ledger) {
    && l.selected <= l.budget.declared && l.selected <= MAX_UNPACKED_BYTES
    && l.budget.entries <= MAX_ARCHIVE_ENTRIES
    && l.written <= l.budget.unpacked && l.written <= MAX_UNPACKED_BYTES
    && l.budget.unpacked <= MAX_UNPACKED_BYTES + CHUNK * l.refused
  }

  function AfterInspect(l: Ledger, files: seq<Info>, depth: nat, collect: bool): (Inventory, Ledger) {
    var r := Inspected(files, l.budget, depth, collect);
    (r.0, l.(budget := r.1, selected := l.selected + Bytes(r.0.members)))
  }

  function AfterExtract(l: Ledger, size: nat, stream: Stream): (Outcome, Ledger) {
    var pulled := Pull(stream.chunks, stream.complete, size, l.budget.unpacked, 0);
    (pulled.0,
     Ledger(l.budget.(unpacked := l.budget.unpacked + pulled.1), l.selected, l.written + pulled.2,
            if pulled.0 == OverBudget then l.refused + 1 else l.refused))
  }

  /** An inventory adds what it declares to the budget, and selects only what still has room. */
  lemma DecideSelects(files: seq<Info>, b: Budget, depth: nat, collect: bool)
    requires b.entries <= MAX_ARCHIVE_ENTRIES
    ensures var s := Decide(files, b, depth, collect);
            && s.budget == b.(declared := b.declared + Declared(files), entries := b.entries + |s.members|)
            && s.budget.entries <= MAX_ARCHIVE_ENTRIES
            && Bytes(s.members) <= Declared(files)
            && (s.members != [] ==> Bytes(s.members) <= MAX_UNPACKED_BYTES - b.declared)
  {
    var over := b.declared + Declared(files) > MAX_UNPACKED_BYTES;
    if !collect || depth > MAX_ARCHIVE_DEPTH || Decide(files, b, depth, collect).bomb {
      DecideNothing(files, b, depth, collect);
    } else {
      SelectWithinRoom(files, MAX_UNPACKED_BYTES - b.declared, b.entries, if over then [Volume] else []);
      hide Select;
      hide Declared;
      hide Bytes;
      hide IsBomb;
    }
  }

  lemma DecideNothing(files: seq<Info>, b: Budget, depth: nat, collect: bool)
    requires !collect || depth > MAX_ARCHIVE_DEPTH || Decide(files, b, depth, collect).bomb
    ensures var s := Decide(files, b, depth, collect);
            s.members == [] && s.budget == b.(declared := b.declared + Declared(files), entries := b.entries)
  {
    hide Select;
    hide Declared;
    hide IsBomb;
  }

  lemma InspectStaysWithin(l: Ledger, files: seq<Info>, depth: nat, collect: bool)
    requires Within(l)
    ensures Within(AfterInspect(l, files, depth, collect).1)
  {
    DecideSelects(files, l.budget, depth, collect);
  }

  lemma {:induction false} PullBounds(chunks: seq<nat>, complete: bool, size: nat, unpacked: nat, written: nat)
    requires forall i :: 0 <= i < |chunks| ==> 0 < chunks[i] <= CHUNK
    requires written == 0 || unpacked + written <= MAX_UNPACKED_BYTES
    ensures var (outcome, counted, out) := Pull(chunks, complete, size, unpacked, written);
            && written <= out <= counted
            && (out == 0 || unpacked + out <= MAX_UNPACKED_BYTES)
            && counted <= out + (if outcome == OverBudget then CHUNK else 0)
            && (outcome != OverBudget ==> counted == out)
  {
    if chunks != [] && written + chunks[0] <= size && unpacked + written + chunks[0] <= MAX_UNPACKED_BYTES {
      PullBounds(chunks[1..], complete, size, unpacked, written + chunks[0]);
    }
  }

  lemma ExtractStaysWithin(l: Ledger, size: nat, stream: Stream)
    requires Within(l) && ValidStream(stream)
    ensures var (outcome, l') := AfterExtract(l, size, stream);
            && Within(l') && l'.budget == l.budget.(unpacked := l'.budget.unpacked) && l'.selected == l.selected
  {
    PullBounds(stream.chunks, stream.complete, size, l.budget.unpacked, 0);
    assert CHUNK * (l.refused + 1) == CHUNK * l.refused + CHUNK;
  }

  /** Any operation on a shared budget. */
  datatype Op = DoInspect(files: seq<Info>, depth: nat, collect: bool) | DoExtract(size: nat, stream: Stream)

  function AfterAll(l: Ledger, ops: seq<Op>): Ledger {
    if ops == [] then l
    else
      var before := AfterAll(l, ops[..|ops| - 1]);
      match ops[|ops| - 1]
      case DoInspect(files, depth, collect) => AfterInspect(before, files, depth, collect).1
      case DoExtract(size, stream) => AfterExtract(before, size, stream).1
  }

  /** One budget bounds everything done under it, in any order and number: the members selected, the
      bytes they declare, the bytes written out; the bytes counted go past the limit by at most one
      chunk for each refused extraction. */
  lemma {:induction false} OneBudgetBoundsAll(rootSize: nat, ops: seq<Op>)
    requires forall i :: 0 <= i < |ops| && ops[i].DoExtract? ==> ValidStream(ops[i].stream)
    ensures Within(AfterAll(Ledger(Budget(rootSize, 0, 0, 0), 0, 0, 0), ops))
  {
    if ops != [] {
      OneBudgetBoundsAll(rootSize, ops[..|ops| - 1]);
      var before := AfterAll(Ledger(Budget(rootSize, 0, 0, 0), 0, 0, 0), ops[..|ops| - 1]);
      match ops[|ops| - 1]
      case DoInspect(files, depth, collect) => InspectStaysWithin(before, files, depth, collect);
      case DoExtract(size, stream) => ExtractStaysWithin(before, size, stream);
    }
  }
}
