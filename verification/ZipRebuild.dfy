/** Rebuilding a ZIP archive from its rebuilt members: what goes into the new archive, and under which names. */
module ZipRebuild {
  import opened Text
  import opened Archive

  const MAX_SANITIZED_BYTES: nat := 128 * 1024 * 1024

  /** What rebuilding one member comes to; `unpacked` are the bytes that a nested archive unpacks on the same
      budget. */
  datatype Cleaned = Refused | Rebuilt(suffix: string, size: nat, transforms: set<string>, unpacked: nat)

  /** Everything outside: how a character is lower-cased, which are printable or white space, and by the
      number of the file the name shown to people, the unpacked stream and the rebuilt member. */
  datatype World = World(
    lower: char -> string, printable: char -> bool, space: char -> bool,
    shown: nat -> string, stream: nat -> Stream, cleaned: nat -> Cleaned)

  // ----- names that lead nowhere -----

  function Printable(s: string, w: World): string {
    if s == "" then "" else (if w.printable(s[0]) then [s[0]] else "") + Printable(s[1..], w)
  }

  function CleanPart(part: string, w: World): string { Strip(Printable(part, w), w.space) }

  /** A part that is dropped: empty, pointing to a directory, or a drive. */
  predicate Dropped(cleaned: string) {
    cleaned == "" || cleaned == "." || cleaned == ".." || (|cleaned| == 2 && cleaned[1] == ':')
  }

  function Cut(s: string): string { if |s| > 128 then s[..128] else s }

  function SafeParts(parts: seq<string>, w: World): seq<string> {
    if parts == [] then []
    else
      var cleaned := CleanPart(parts[0], w);
      (if Dropped(cleaned) then [] else [Cut(cleaned)]) + SafeParts(parts[1..], w)
  }

  function Join(parts: seq<string>): string {
    if parts == [] then "" else if |parts| == 1 then parts[0] else parts[0] + "/" + Join(parts[1..])
  }

  function SafeName(name: string, index: nat, w: World): string {
    var parts := SafeParts(Split(Replace(name, '\\', '/'), '/'), w);
    if parts == [] then "file-" + Decimal(index) else Join(parts)
  }

  predicate Plain(part: string) { part != "" && part != "." && part != ".." && '/' !in part && '\\' !in part }

  lemma {:induction false} PrintableParts(s: string, c: char, w: World)
    requires c !in s
    ensures c !in Printable(s, w)
  {
    if s != "" { PrintableParts(s[1..], c, w); }
  }

  lemma CleanPartIsPlain(part: string, w: World)
    requires '/' !in part && '\\' !in part && !Dropped(CleanPart(part, w))
    ensures Plain(Cut(CleanPart(part, w)))
  {
    CleanPartKeepsOut(part, '/', w);
    CleanPartKeepsOut(part, '\\', w);
  }

  lemma CleanPartKeepsOut(part: string, c: char, w: World)
    requires c !in part
    ensures c !in CleanPart(part, w)
  {
    PrintableParts(part, c, w);
    StripKeepsOut(Printable(part, w), c, w.space);
  }

  lemma {:induction false} SafePartsArePlain(parts: seq<string>, w: World)
    requires forall i :: 0 <= i < |parts| ==> '/' !in parts[i] && '\\' !in parts[i]
    ensures forall i :: 0 <= i < |SafeParts(parts, w)| ==> Plain(SafeParts(parts, w)[i])
  {
    if parts != [] {
      if !Dropped(CleanPart(parts[0], w)) { CleanPartIsPlain(parts[0], w); }
      SafePartsArePlain(parts[1..], w);
    }
  }

  lemma {:induction false} SplitJoin(parts: seq<string>)
    requires parts != [] && forall i :: 0 <= i < |parts| ==> Plain(parts[i])
    ensures Split(Join(parts), '/') == parts
  {
    if |parts| == 1 {
      SplitPlain(parts[0], '/');
    } else {
      SplitJoin(parts[1..]);
      SplitPrefix(parts[0], Join(parts[1..]), '/');
      assert [parts[0]] + parts[1..] == parts;
    }
  }

  lemma {:induction false} DecimalIsPlain(n: nat)
    ensures forall i :: 0 <= i < |Decimal(n)| ==> '0' <= Decimal(n)[i] <= '9'
  {
    if n >= 10 { DecimalIsPlain(n / 10); }
  }

  /** No component of a safe name is empty, "." or "..". */
  lemma SafeNameIsPlain(name: string, index: nat, w: World)
    ensures var parts := Split(SafeName(name, index, w), '/');
            forall i :: 0 <= i < |parts| ==> Plain(parts[i])
  {
    var split := Split(Replace(name, '\\', '/'), '/');
    SplitParts(Replace(name, '\\', '/'), '/');
    SplitKeepsOut(Replace(name, '\\', '/'), '/', '\\');
    SafePartsArePlain(split, w);
    if SafeParts(split, w) == [] {
      DecimalIsPlain(index);
      SplitPlain("file-" + Decimal(index), '/');
    } else {
      SplitJoin(SafeParts(split, w));
    }
  }

  lemma {:induction false} JoinKeepsOut(parts: seq<string>, c: char)
    requires c != '/' && forall i :: 0 <= i < |parts| ==> c !in parts[i]
    ensures c !in Join(parts)
  {
    if |parts| > 1 { JoinKeepsOut(parts[1..], c); }
  }

  lemma SafeNameHasNoBackslash(name: string, index: nat, w: World)
    ensures '\\' !in SafeName(name, index, w)
  {
    var split := Split(Replace(name, '\\', '/'), '/');
    SplitParts(Replace(name, '\\', '/'), '/');
    SplitKeepsOut(Replace(name, '\\', '/'), '/', '\\');
    SafePartsArePlain(split, w);
    JoinKeepsOut(SafeParts(split, w), '\\');
    DecimalIsPlain(index);
  }

  lemma SplitStart(s: string)
    requires s != "" && s[0] == '/'
    ensures Split(s, '/')[0] == ""
  {
  }

  /** A safe name can lead out of the directory only by looking like a path on a drive. */
  lemma EscapesByDrive(name: string, index: nat, w: World)
    ensures var safe := SafeName(name, index, w);
            EscapesRoot(safe) <==> |safe| > 1 && safe[1] == ':'
  {
    var safe := SafeName(name, index, w);
    SafeNameIsPlain(name, index, w);
    SafeNameHasNoBackslash(name, index, w);
    assert Replace(safe, '\\', '/') == safe;
    if safe != "" && safe[0] == '/' { SplitStart(safe); }
  }

  /** More than a drive alone, which is dropped: a drive with something behind it, as in "C:x". */
  predicate DriveAndMore(cleaned: string) { |cleaned| > 2 && cleaned[1] == ':' }

  /** The first component that is not dropped is a drive with something behind it. */
  ghost predicate DriveFirst(parts: seq<string>, w: World) {
    exists k :: 0 <= k < |parts| && DriveAndMore(CleanPart(parts[k], w)) && forall j :: 0 <= j < k ==> Dropped(CleanPart(parts[j], w))
  }

  lemma DriveFirstStep(parts: seq<string>, w: World)
    requires parts != []
    ensures DriveFirst(parts, w)
            <==> DriveAndMore(CleanPart(parts[0], w)) || (Dropped(CleanPart(parts[0], w)) && DriveFirst(parts[1..], w))
  {
    hide CleanPart;
    hide Dropped;
    hide DriveAndMore;
    if DriveFirst(parts[1..], w) && Dropped(CleanPart(parts[0], w)) {
      var k :| 0 <= k < |parts[1..]| && DriveAndMore(CleanPart(parts[1..][k], w)) && forall j :: 0 <= j < k ==> Dropped(CleanPart(parts[1..][j], w));
      assert forall j :: 0 < j < |parts| ==> parts[j] == parts[1..][j - 1];
      assert DriveAndMore(CleanPart(parts[k + 1], w));
    }
    if DriveFirst(parts, w) && !DriveAndMore(CleanPart(parts[0], w)) {
      var k :| 0 <= k < |parts| && DriveAndMore(CleanPart(parts[k], w)) && forall j :: 0 <= j < k ==> Dropped(CleanPart(parts[j], w));
      assert forall j :: 0 <= j < k - 1 ==> parts[1..][j] == parts[j + 1];
      assert parts[1..][k - 1] == parts[k];
    }
  }

  lemma {:induction false} DriveIsFirst(parts: seq<string>, w: World)
    ensures DriveFirst(parts, w) <==> var safe := SafeParts(parts, w); safe != [] && |safe[0]| > 1 && safe[0][1] == ':'
  {
    if parts != [] {
      hide CleanPart;
      hide DriveFirst;
      DriveFirstStep(parts, w);
      DriveIsFirst(parts[1..], w);
    }
  }

  lemma JoinStart(parts: seq<string>)
    requires parts != [] && Plain(parts[0])
    ensures |Join(parts)| > 1 && Join(parts)[1] == ':' <==> |parts[0]| > 1 && parts[0][1] == ':'
  {
  }

  lemma NumberIsNoDrive(index: nat)
    ensures var safe := "file-" + Decimal(index); |safe| > 1 && safe[1] != ':'
  {
    hide Decimal;
  }

  lemma SafeNameStarts(name: string, index: nat, w: World)
    ensures var safe, split := SafeName(name, index, w), Split(Replace(name, '\\', '/'), '/');
            |safe| > 1 && safe[1] == ':' <==> DriveFirst(split, w)
  {
    var split := Split(Replace(name, '\\', '/'), '/');
    SplitParts(Replace(name, '\\', '/'), '/');
    SplitKeepsOut(Replace(name, '\\', '/'), '/', '\\');
    hide Split;
    hide Replace;
    hide DriveFirst;
    SafePartsArePlain(split, w);
    DriveIsFirst(split, w);
    hide SafeParts;
    hide Plain;
    NumberIsNoDrive(index);
    if SafeParts(split, w) != [] {
      assert Plain(SafeParts(split, w)[0]);
      JoinStart(SafeParts(split, w));
    }
    hide Join;
  }

  /** A safe name leads out of the directory if and only if the first component of the name given that is not
      dropped looks like a drive with something behind it. */
  lemma SafeNameEscapesExactly(name: string, index: nat, w: World)
    ensures EscapesRoot(SafeName(name, index, w)) <==> DriveFirst(Split(Replace(name, '\\', '/'), '/'), w)
  {
    hide EscapesRoot;
    hide DriveFirst;
    hide SafeName;
    hide Split;
    hide Replace;
    EscapesByDrive(name, index, w);
    SafeNameStarts(name, index, w);
  }

  lemma {:induction false} AllPrintable(s: string, w: World)
    requires forall i :: 0 <= i < |s| ==> w.printable(s[i])
    ensures Printable(s, w) == s
  {
    if s != "" {
      AllPrintable(s[1..], w);
      assert [s[0]] + s[1..] == s;
    }
  }

  /** One component that looks like a drive with something behind it is left as it is, and leads out. */
  lemma DriveStays(name: string, index: nat, w: World)
    requires 2 < |name| <= 128 && name[1] == ':' && '/' !in name && '\\' !in name
    requires forall i :: 0 <= i < |name| ==> w.printable(name[i]) && !w.space(name[i])
    ensures SafeName(name, index, w) == name && EscapesRoot(name)
  {
    assert Replace(name, '\\', '/') == name;
    SplitPlain(name, '/');
    AllPrintable(name, w);
    assert CleanPart(name, w) == name;
    hide CleanPart;
    assert [name][1..] == [];
    assert SafeParts([name], w) == [name];
  }

  /** For instance "C:x". */
  lemma DriveOfThree(index: nat, w: World)
    requires forall c :: c in "C:x" ==> w.printable(c) && !w.space(c)
    ensures SafeName("C:x", index, w) == "C:x" && EscapesRoot("C:x")
  {
    var name := "C:x";
    forall i | 0 <= i < |name|
      ensures w.printable(name[i]) && !w.space(name[i])
    {
      assert name[i] in name;
    }
    DriveStays(name, index, w);
  }

  // ----- names that nobody has yet -----

  function LastDot(base: string): (i: int)
    ensures -1 <= i < |base|
  {
    if base == "" then -1 else if base[|base| - 1] == '.' then |base| - 1 else LastDot(base[..|base| - 1])
  }

  /** Where the extension begins: at the last dot of the last component, unless that dot is its first or
      last character. */
  function SuffixStart(name: string): (i: nat)
    ensures i <= |name|
  {
    var b := BaseStart(name);
    var dot := LastDot(name[b..]);
    if 0 < dot < |name| - b - 1 then b + dot else |name|
  }

  function SuffixOf(name: string): string { name[SuffixStart(name)..] }

  /** Lower case leaves digits and the hyphen as they are. */
  ghost predicate Sensible(w: World) {
    w.lower('-') == "-" && forall c :: '0' <= c <= '9' ==> w.lower(c) == [c]
  }

  function EquivalentTo(suffix: string): set<string> {
    if suffix == ".jpg" then {".jpg", ".jpeg"} else if suffix == ".tif" then {".tif", ".tiff"} else {suffix}
  }

  /** The extension follows the content. */
  function Renamed(name: string, suffix: string, w: World): string {
    var current := Lower(SuffixOf(name), w.lower);
    if current in EquivalentTo(suffix) then name
    else if current == "" then name + suffix
    else (if |current| > |name| then "" else name[..|name| - |current|]) + suffix
  }

  /** The names tried in turn: the name itself, then with -2, -3 and so on before the extension. */
  function Tried(name: string, n: nat): string {
    if n == 0 then name else name[..SuffixStart(name)] + "-" + Decimal(n + 1) + SuffixOf(name)
  }

  function TriedLower(name: string, w: World): nat -> string {
    (n: nat) => Lower(Tried(name, n), w.lower)
  }

  lemma {:induction false} LowerOfDigits(s: string, w: World)
    requires Sensible(w) && forall i :: 0 <= i < |s| ==> '0' <= s[i] <= '9'
    ensures Lower(s, w.lower) == s
  {
    if s != "" { LowerOfDigits(s[..|s| - 1], w); }
  }

  lemma LowerOfNumber(n: nat, w: World)
    requires Sensible(w)
    ensures Lower("-" + Decimal(n), w.lower) == "-" + Decimal(n)
  {
    DecimalIsPlain(n);
    LowerOfDigits(Decimal(n), w);
    assert "-"[..0] == "" && "" + "-" == "-";
    assert Lower("-", w.lower) == "-";
    LowerAppend("-", Decimal(n), w.lower);
  }

  lemma TriedForm(name: string, n: nat)
    ensures var i := SuffixStart(name); Tried(name, n) == name[..i] + Number(n) + name[i..]
  {
    hide Decimal;
    hide SuffixStart;
    var a, q := name[..SuffixStart(name)], name[SuffixStart(name)..];
    if n == 0 {
      assert name == a + "" + q;
    } else {
      assert a + "-" + Decimal(n + 1) == a + ("-" + Decimal(n + 1));
    }
  }

  function Number(n: nat): string { if n == 0 then "" else "-" + Decimal(n + 1) }

  lemma NumberIsLower(n: nat, w: World)
    requires Sensible(w)
    ensures Lower(Number(n), w.lower) == Number(n)
  {
    if n > 0 { LowerOfNumber(n + 1, w); }
  }

  lemma TriedLowerForm(name: string, n: nat, w: World)
    requires Sensible(w)
    ensures var i := SuffixStart(name);
            TriedLower(name, w)(n) == Lower(name[..i], w.lower) + Number(n) + Lower(name[i..], w.lower)
  {
    var i := SuffixStart(name);
    hide SuffixStart;
    hide Tried;
    hide Number;
    hide Lower;
    TriedForm(name, n);
    NumberIsLower(n, w);
    LowerAppend(name[..i], Number(n), w.lower);
    LowerAppend(name[..i] + Number(n), name[i..], w.lower);
  }

  lemma Cancel(p: string, a: string, b: string, q: string)
    requires p + a + q == p + b + q
    ensures a == b
  {
    var s, t := p + a + q, p + b + q;
    assert |a| == |b|;
    assert s[|p|..|p| + |a|] == a && t[|p|..|p| + |b|] == b;
  }

  lemma NumbersDiffer(m: nat, n: nat)
    requires Number(m) == Number(n)
    ensures m == n
  {
    if m != 0 && n != 0 {
      assert Number(m)[1..] == Decimal(m + 1) && Number(n)[1..] == Decimal(n + 1);
      DecimalInjective(m + 1, n + 1);
    }
  }

  /** All names tried differ, also in lower case, so the search for a free one ends. */
  lemma TriedDiffer(name: string, w: World)
    requires Sensible(w)
    ensures Injective(TriedLower(name, w))
  {
    var i := SuffixStart(name);
    forall m: nat, n: nat | TriedLower(name, w)(m) == TriedLower(name, w)(n)
      ensures m == n
    {
      TriedLowerForm(name, m, w);
      TriedLowerForm(name, n, w);
      hide Tried;
      hide Lower;
      hide Decimal;
      Cancel(Lower(name[..i], w.lower), Number(m), Number(n), Lower(name[i..], w.lower));
      NumbersDiffer(m, n);
    }
  }

  /** The first of the names tried that nobody has, whatever the case of its letters. */
  method Unique(name: string, taken: set<string>, w: World) returns (free: string, n: nat)
    requires Sensible(w)
    ensures free == Tried(name, n) && Lower(free, w.lower) !in taken && n <= |taken|
    ensures forall m: nat :: m < n ==> Lower(Tried(name, m), w.lower) in taken
  {
    TriedDiffer(name, w);
    n := FindFree(TriedLower(name, w), taken);
    free := Tried(name, n);
    forall m: nat | m < n
      ensures Lower(Tried(name, m), w.lower) in taken
    {
      assert TriedLower(name, w)(m) in taken;
    }
  }

  // ----- the new archive -----

  /** An entry of the new archive: the number of the file it comes from, and whether it is written empty
      instead of with the rebuilt member. */
  datatype Output = Output(source: nat, name: string, empty: bool)

  datatype Failure = NestedTooDeep | NotChecked | NotUnpacked | NotRebuilt | OutputTooLarge

  datatype Result = Ok(outputs: seq<Output>, transforms: set<string>) | Err(failure: Failure)

  function NamesOf(members: seq<Member>): set<string> {
    set i | 0 <= i < |members| :: members[i].info.name
  }

  /** The file goes into the new archive: rebuilt if the inventory selected its name, empty if it is empty. */
  predicate Carried(info: Info, selected: set<string>) {
    !IsOsMetadata(info) && (info.name in selected || (info.size == 0 && !info.encrypted))
  }

  function CarriedUpTo(files: seq<Info>, selected: set<string>, k: nat): seq<nat>
    requires k <= |files|
  {
    if k == 0 then []
    else CarriedUpTo(files, selected, k - 1) + (if Carried(files[k - 1], selected) then [k] else [])
  }

  function Sources(outputs: seq<Output>): (r: seq<nat>)
    ensures |r| == |outputs|
  {
    seq(|outputs|, i requires 0 <= i < |outputs| => outputs[i].source)
  }

  /** The name a file asks for. */
  function AskedName(info: Info, selected: set<string>, index: nat, w: World): string {
    var safe := SafeName(w.shown(index), index, w);
    if info.name in selected && w.cleaned(index).Rebuilt? then Renamed(safe, w.cleaned(index).suffix, w) else safe
  }

  /** Some entry has this name, whatever the case of its letters. */
  ghost predicate Has(outputs: seq<Output>, name: string, w: World) {
    exists i :: 0 <= i < |outputs| && Lower(outputs[i].name, w.lower) == Lower(name, w.lower)
  }

  /** Of the names tried for the one asked for, the first that no earlier entry has. */
  ghost predicate IsFirstFree(name: string, asked: string, earlier: seq<Output>, w: World) {
    exists n: nat :: name == Tried(asked, n) && forall m: nat :: m < n ==> Has(earlier, Tried(asked, m), w)
  }

  ghost predicate NamedAfter(o: Output, files: seq<Info>, selected: set<string>, earlier: seq<Output>, w: World) {
    && 1 <= o.source <= |files| && (o.empty <==> files[o.source - 1].name !in selected)
    && IsFirstFree(o.name, AskedName(files[o.source - 1], selected, o.source, w), earlier, w)
  }

  ghost predicate NamesDiffer(outputs: seq<Output>, w: World) {
    forall i, j :: 0 <= i < j < |outputs| ==> Lower(outputs[i].name, w.lower) != Lower(outputs[j].name, w.lower)
  }

  /** How far the members got: bytes unpacked under the budget, and bytes put out. */
  datatype Progress = Going(unpacked: nat, total: nat) | Stopped(failure: Failure)

  function Advanced(p: Progress, info: Info, selected: set<string>, index: nat, w: World): Progress {
    if p.Stopped? || IsOsMetadata(info) || info.name !in selected then p
    else
      var pulled := Pull(w.stream(index).chunks, w.stream(index).complete, info.size, p.unpacked, 0);
      if pulled.0 != Extracted then Stopped(NotUnpacked)
      else if w.cleaned(index).Refused? then Stopped(NotRebuilt)
      else if p.total + w.cleaned(index).size > MAX_SANITIZED_BYTES then Stopped(OutputTooLarge)
      else Going(p.unpacked + pulled.1 + w.cleaned(index).unpacked, p.total + w.cleaned(index).size)
  }

  function ProgressUpTo(files: seq<Info>, selected: set<string>, unpacked: nat, k: nat, w: World): Progress
    requires k <= |files|
  {
    if k == 0 then Going(unpacked, 0)
    else Advanced(ProgressUpTo(files, selected, unpacked, k - 1, w), files[k - 1], selected, k, w)
  }

  /** What is reported about one file. */
  function NoteOf(info: Info, selected: set<string>, index: nat, w: World): set<string> {
    if IsOsMetadata(info) then {"drop_os_metadata"}
    else if !Carried(info, selected) then {"drop_unscanned"}
    else if info.name !in selected || w.cleaned(index).Refused? then {}
    else
      (if SafeName(w.shown(index), index, w) != Replace(w.shown(index), '\\', '/') then {"normalize_paths"} else {})
      + (set t | t in w.cleaned(index).transforms :: "member:" + t)
  }

  function NotesUpTo(files: seq<Info>, selected: set<string>, k: nat, w: World): set<string>
    requires k <= |files|
  {
    if k == 0 then {"rebuild_archive"} else NotesUpTo(files, selected, k - 1, w) + NoteOf(files[k - 1], selected, k, w)
  }

  predicate Unchecked(inventory: Inventory) { inventory.bomb || inventory.encrypted || inventory.incomplete != [] }

  method NamesSelected(members: seq<Member>) returns (selected: set<string>)
    ensures selected == NamesOf(members)
  {
    selected := {};
    for i := 0 to |members|
      invariant selected == NamesOf(members[..i])
    {
      assert members[..i + 1][i] == members[i];
      assert forall j :: 0 <= j < i ==> members[..i + 1][j] == members[..i][j];
      selected := selected + {members[i].info.name};
      assert selected == NamesOf(members[..i + 1]) by {
        forall x | x in selected
          ensures x in NamesOf(members[..i + 1])
        {
          if x == members[i].info.name { assert members[..i + 1][i].info.name == x; }
        }
      }
    }
    assert members[..|members|] == members;
  }

  /** The entries made from the first `k` files. */
  ghost predicate Built(outputs: seq<Output>, files: seq<Info>, selected: set<string>, k: nat, w: World) {
    && k <= |files| && Sources(outputs) == CarriedUpTo(files, selected, k) && NamesDiffer(outputs, w)
    && forall i :: 0 <= i < |outputs| ==> NamedAfter(outputs[i], files, selected, outputs[..i], w)
  }

  ghost predicate Taken(outputs: seq<Output>, taken: set<string>, w: World) {
    && (forall i :: 0 <= i < |outputs| ==> Lower(outputs[i].name, w.lower) in taken)
    && forall x :: x in taken ==> exists i :: 0 <= i < |outputs| && Lower(outputs[i].name, w.lower) == x
  }

  /** One more entry under a name that nobody has. */
  lemma OneMoreOutput(outputs: seq<Output>, taken: set<string>, o: Output, files: seq<Info>, selected: set<string>, k: nat, w: World)
    requires k < |files| && Built(outputs, files, selected, k, w) && Taken(outputs, taken, w)
    requires Carried(files[k], selected) && o.source == k + 1 && NamedAfter(o, files, selected, outputs, w)
    requires Lower(o.name, w.lower) !in taken
    ensures Built(outputs + [o], files, selected, k + 1, w)
    ensures Taken(outputs + [o], taken + {Lower(o.name, w.lower)}, w)
  {
    hide NamedAfter;
    hide Lower;
    hide Carried;
    var more := outputs + [o];
    assert Sources(more) == Sources(outputs) + [k + 1];
    forall i | 0 <= i < |more|
      ensures NamedAfter(more[i], files, selected, more[..i], w)
    {
      assert more[..i] == outputs[..i];
    }
    OneMoreTaken(outputs, taken, o, w);
  }

  lemma OneMoreTaken(outputs: seq<Output>, taken: set<string>, o: Output, w: World)
    requires Taken(outputs, taken, w)
    ensures Taken(outputs + [o], taken + {Lower(o.name, w.lower)}, w)
  {
    hide Lower;
    var more := outputs + [o];
    assert more[|outputs|] == o;
    forall x | x in taken
      ensures exists i :: 0 <= i < |more| && Lower(more[i].name, w.lower) == x
    {
      var i :| 0 <= i < |outputs| && Lower(outputs[i].name, w.lower) == x;
      assert more[i] == outputs[i];
    }
  }

  /** A name taken is the name of an entry. */
  lemma TakenIsHad(outputs: seq<Output>, taken: set<string>, name: string, w: World)
    requires Taken(outputs, taken, w) && Lower(name, w.lower) in taken
    ensures Has(outputs, name, w)
  {
    hide Lower;
  }

  lemma NoMoreOutput(outputs: seq<Output>, files: seq<Info>, selected: set<string>, k: nat, w: World)
    requires k < |files| && Built(outputs, files, selected, k, w) && !Carried(files[k], selected)
    ensures Built(outputs, files, selected, k + 1, w)
  {
  }

  /** Unpacks and rebuilds one member. */
  method RebuildMember(info: Info, selected: set<string>, index: nat, total: nat, budget: UnpackBudget, w: World) returns (p: Progress)
    requires !IsOsMetadata(info) && info.name in selected
    modifies budget`unpacked
    ensures p == Advanced(Going(old(budget.unpacked), total), info, selected, index, w)
    ensures p.Going? ==> p.unpacked == budget.unpacked && w.cleaned(index).Rebuilt?
  {
    hide IsOsMetadata;
    var outcome, out := Extract(info.size, w.stream(index), budget);
    if outcome != Extracted {
      return Stopped(NotUnpacked);
    }
    match w.cleaned(index) {
      case Refused => return Stopped(NotRebuilt);
      case Rebuilt(_, size, _, unpacked) =>
        budget.unpacked := budget.unpacked + unpacked;
        if total + size > MAX_SANITIZED_BYTES {
          return Stopped(OutputTooLarge);
        }
        return Going(budget.unpacked, total + size);
    }
  }

  /** Adds an entry under the first free of its names. */
  method AddEntry(outputs: seq<Output>, taken: set<string>, files: seq<Info>, selected: set<string>, k: nat, w: World)
    returns (more: seq<Output>, takenNow: set<string>)
    requires Sensible(w) && k < |files| && Built(outputs, files, selected, k, w) && Taken(outputs, taken, w)
    requires Carried(files[k], selected)
    ensures Built(more, files, selected, k + 1, w) && Taken(more, takenNow, w)
  {
    var asked := AskedName(files[k], selected, k + 1, w);
    hide AskedName;
    hide Built;
    hide Taken;
    hide Lower;
    hide Carried;
    var name, n := Unique(asked, taken, w);
    var o := Output(k + 1, name, files[k].name !in selected);
    forall m: nat | m < n
      ensures Has(outputs, Tried(asked, m), w)
    {
      TakenIsHad(outputs, taken, Tried(asked, m), w);
    }
    hide Has;
    assert IsFirstFree(name, asked, outputs, w);
    OneMoreOutput(outputs, taken, o, files, selected, k, w);
    more, takenNow := outputs + [o], taken + {Lower(name, w.lower)};
  }

  /** The members, one after the other: all goes well, or the first failure ends it. */
  method RebuildMembers(files: seq<Info>, selected: set<string>, budget: UnpackBudget, w: World) returns (r: Result)
    requires Sensible(w)
    modifies budget`unpacked
    ensures var p := ProgressUpTo(files, selected, old(budget.unpacked), |files|, w);
            if p.Stopped? then r == Err(p.failure)
            else r.Ok? && Built(r.outputs, files, selected, |files|, w) && r.transforms == NotesUpTo(files, selected, |files|, w)
  {
    hide IsOsMetadata;
    hide Built;
    hide Taken;
    hide Advanced;
    hide SafeName;
    var outputs, transforms, taken, total := [], {"rebuild_archive"}, {}, 0;
    NothingBuilt(files, selected, w);
    for k := 0 to |files|
      invariant ProgressUpTo(files, selected, old(budget.unpacked), k, w) == Going(budget.unpacked, total)
      invariant transforms == NotesUpTo(files, selected, k, w)
      invariant Built(outputs, files, selected, k, w) && Taken(outputs, taken, w)
    {
      var info, index := files[k], k + 1;
      KeepsGoing(Going(budget.unpacked, total), info, selected, index, w);
      if IsOsMetadata(info) {
        transforms := transforms + {"drop_os_metadata"};
        NoMoreOutput(outputs, files, selected, k, w);
      } else if info.name !in selected {
        if info.size == 0 && !info.encrypted {
          outputs, taken := AddEntry(outputs, taken, files, selected, k, w);
        } else {
          transforms := transforms + {"drop_unscanned"};
          NoMoreOutput(outputs, files, selected, k, w);
        }
      } else {
        var p := RebuildMember(info, selected, index, total, budget, w);
        if p.Stopped? {
          ProgressStops(files, selected, old(budget.unpacked), k + 1, w);
          return Err(p.failure);
        }
        total := p.total;
        if SafeName(w.shown(index), index, w) != Replace(w.shown(index), '\\', '/') {
          transforms := transforms + {"normalize_paths"};
        }
        outputs, taken := AddEntry(outputs, taken, files, selected, k, w);
        transforms := transforms + (set t | t in w.cleaned(index).transforms :: "member:" + t);
      }
    }
    r := Ok(outputs, transforms);
  }

  lemma NothingBuilt(files: seq<Info>, selected: set<string>, w: World)
    ensures Built([], files, selected, 0, w) && Taken([], {}, w)
  {
  }

  lemma KeepsGoing(p: Progress, info: Info, selected: set<string>, index: nat, w: World)
    ensures IsOsMetadata(info) || info.name !in selected ==> Advanced(p, info, selected, index, w) == p
  {
  }

  lemma {:induction false} ProgressStops(files: seq<Info>, selected: set<string>, unpacked: nat, k: nat, w: World)
    requires k <= |files| && ProgressUpTo(files, selected, unpacked, k, w).Stopped?
    ensures ProgressUpTo(files, selected, unpacked, |files|, w) == ProgressUpTo(files, selected, unpacked, k, w)
    decreases |files| - k
  {
    if k < |files| { ProgressStops(files, selected, unpacked, k + 1, w); }
  }

  /** What the inventory made of the archive decides what may go on. */
  ghost predicate Decides(r: Result, files: seq<Info>, inspected: (Inventory, Budget), zipped: nat, w: World) {
    var selected := NamesOf(inspected.0.members);
    var p := ProgressUpTo(files, selected, inspected.1.unpacked, |files|, w);
    if Unchecked(inspected.0) then r == Err(NotChecked)
    else if p.Stopped? then r == Err(p.failure)
    else if zipped > MAX_SANITIZED_BYTES then r == Err(OutputTooLarge)
    else r.Ok? && Built(r.outputs, files, selected, |files|, w) && r.transforms == NotesUpTo(files, selected, |files|, w)
  }

  method FilesOf(infos: seq<Info>) returns (files: seq<Info>)
    ensures files == Files(infos)
  {
    files := [];
    for i := 0 to |infos|
      invariant files + Files(infos[i..]) == Files(infos)
    {
      assert infos[i..][1..] == infos[i + 1..];
      if !infos[i].dir { files := files + [infos[i]]; }
    }
    assert infos[|infos|..] == [];
  }

  /** Rebuilds an archive under a budget it may share; `zipped` is the size of the new archive. */
  method Sanitize(infos: seq<Info>, budget: UnpackBudget, depth: nat, zipped: nat, w: World) returns (r: Result)
    requires Sensible(w)
    modifies budget
    ensures if depth > MAX_ARCHIVE_DEPTH then r == Err(NestedTooDeep)
            else Decides(r, Files(infos), Inspected(Files(infos), old(budget.State()), depth, true), zipped, w)
  {
    if depth > MAX_ARCHIVE_DEPTH {
      return Err(NestedTooDeep);
    }
    var files := FilesOf(infos);
    var inventory := Inspect(files, budget, depth, true);
    hide Inspected;
    if Unchecked(inventory) {
      return Err(NotChecked);
    }
    var selected := NamesSelected(inventory.members);
    r := RebuildMembers(files, selected, budget, w);
    if r.Ok? && zipped > MAX_SANITIZED_BYTES {
      return Err(OutputTooLarge);
    }
  }

  // ----- nothing is dropped silently -----

  ghost predicate Increasing(list: seq<nat>, k: nat) {
    (forall i :: 0 <= i < |list| ==> 1 <= list[i] <= k) && (forall i, j :: 0 <= i < j < |list| ==> list[i] < list[j])
  }

  lemma {:induction false} CarriedIncreases(files: seq<Info>, selected: set<string>, k: nat)
    requires k <= |files|
    ensures Increasing(CarriedUpTo(files, selected, k), k)
  {
    if k > 0 {
      CarriedIncreases(files, selected, k - 1);
    }
  }

  lemma {:induction false} ListedIsCarried(files: seq<Info>, selected: set<string>, k: nat, i: nat)
    requires k <= |files| && i < |CarriedUpTo(files, selected, k)|
    ensures 1 <= CarriedUpTo(files, selected, k)[i] <= |files| && Carried(files[CarriedUpTo(files, selected, k)[i] - 1], selected)
  {
    if k > 0 && i < |CarriedUpTo(files, selected, k - 1)| { ListedIsCarried(files, selected, k - 1, i); }
  }

  lemma {:induction false} CarriedIsListed(files: seq<Info>, selected: set<string>, k: nat, index: nat) returns (i: nat)
    requires 1 <= index <= k <= |files| && Carried(files[index - 1], selected)
    ensures i < |CarriedUpTo(files, selected, k)| && CarriedUpTo(files, selected, k)[i] == index
  {
    hide IsOsMetadata;
    if index == k {
      i := |CarriedUpTo(files, selected, k)| - 1;
    } else {
      i := CarriedIsListed(files, selected, k - 1, index);
    }
  }

  lemma {:induction false} ReasonsStay(files: seq<Info>, room: int, entries: nat, incomplete: seq<Reason>)
    ensures |incomplete| <= |Select(files, room, entries, incomplete).incomplete|
  {
    hide Skipped;
    if files != [] { ReasonsStay(files[..|files| - 1], room, entries, incomplete); }
  }

  /** An archive that was checked whole selected its members with the room there was. */
  lemma CheckedSelects(files: seq<Info>, b: Budget, depth: nat)
    requires !Unchecked(Inspected(files, b, depth, true).0)
    ensures !AnyEncrypted(files)
    ensures var sel := Select(files, MAX_UNPACKED_BYTES - b.declared, b.entries, []);
            sel.incomplete == [] && sel.members == Inspected(files, b, depth, true).0.members
  {
    hide AllProblems;
    hide Select;
    hide AnyEncrypted;
    ReasonsStay(files, MAX_UNPACKED_BYTES - b.declared, b.entries, [Volume]);
  }

  /** In an archive that was checked whole, every file but macOS metadata and links is carried. */
  lemma CheckedIsCarried(files: seq<Info>, b: Budget, depth: nat, index: nat)
    requires 1 <= index <= |files| && !IsOsMetadata(files[index - 1]) && !files[index - 1].symlink
    requires !Unchecked(Inspected(files, b, depth, true).0)
    ensures Carried(files[index - 1], NamesOf(Inspected(files, b, depth, true).0.members))
  {
    var info, members := files[index - 1], Inspected(files, b, depth, true).0.members;
    CheckedSelects(files, b, depth);
    assert !info.encrypted;
    hide Inspected;
    hide Select;
    hide IsOsMetadata;
    if info.size > 0 {
      SelectIsComplete(files, MAX_UNPACKED_BYTES - b.declared, b.entries, index - 1);
      var i :| 0 <= i < |members| && members[i] == Member(index, info);
      assert members[i].info.name in NamesOf(members);
    }
  }

  lemma BuiltSources(outputs: seq<Output>, files: seq<Info>, selected: set<string>, w: World, index: nat)
    requires Built(outputs, files, selected, |files|, w) && 1 <= index <= |files|
    ensures Carried(files[index - 1], selected) <==> exists i :: 0 <= i < |outputs| && outputs[i].source == index
  {
    hide NamedAfter;
    hide NamesDiffer;
    hide Carried;
    SourcesAre(outputs);
    if Carried(files[index - 1], selected) {
      var i := CarriedIsListed(files, selected, |files|, index);
      assert Sources(outputs)[i] == index;
    }
    forall i | 0 <= i < |outputs| && outputs[i].source == index
      ensures Carried(files[index - 1], selected)
    {
      ListedIsCarried(files, selected, |files|, i);
    }
  }

  lemma SourcesIncrease(outputs: seq<Output>, files: seq<Info>, selected: set<string>, w: World)
    requires Built(outputs, files, selected, |files|, w)
    ensures forall i, j :: 0 <= i < j < |outputs| ==> outputs[i].source < outputs[j].source
  {
    hide NamedAfter;
    hide NamesDiffer;
    CarriedIncreases(files, selected, |files|);
    SourcesAre(outputs);
  }

  lemma SourcesAre(outputs: seq<Output>)
    ensures forall i :: 0 <= i < |outputs| ==> Sources(outputs)[i] == outputs[i].source
  {
  }

  /** When rebuilding succeeds: no two entries of the new archive share a name, whatever the case of the
      letters; every file that is neither macOS metadata nor a link is the source of exactly one entry, and
      every entry has one source. */
  lemma NothingIsDropped(files: seq<Info>, b: Budget, depth: nat, zipped: nat, r: Result, w: World, index: nat)
    requires r.Ok? && Decides(r, files, Inspected(files, b, depth, true), zipped, w)
    requires 1 <= index <= |files|
    ensures NamesDiffer(r.outputs, w)
    ensures !IsOsMetadata(files[index - 1]) && !files[index - 1].symlink ==>
              exists i :: 0 <= i < |r.outputs| && r.outputs[i].source == index
    ensures IsOsMetadata(files[index - 1]) ==> forall i :: 0 <= i < |r.outputs| ==> r.outputs[i].source != index
    ensures forall i, j :: 0 <= i < j < |r.outputs| ==> r.outputs[i].source < r.outputs[j].source
  {
    var inspected := Inspected(files, b, depth, true);
    BuiltSources(r.outputs, files, NamesOf(inspected.0.members), w, index);
    SourcesIncrease(r.outputs, files, NamesOf(inspected.0.members), w);
    hide Inspected;
    hide Decides;
    hide Built;
    hide NamesDiffer;
    hide IsOsMetadata;
    if !IsOsMetadata(files[index - 1]) && !files[index - 1].symlink {
      CheckedIsCarried(files, b, depth, index);
    }
  }
}
