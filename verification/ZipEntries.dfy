/** The entries of a rebuilt ZIP archive: their names, when a rebuild succeeds, and what is noted about it. */
module ZipEntries {
  import opened Text
  import opened Archive
  import opened ZipRebuild

  // ----- extensions -----

  /** The extension of the last component begins at `i`: with its last dot, which is neither its first nor its last
      character. */
  predicate ExtensionAt(name: string, i: int) {
    && 0 < i < |name| - 1 && name[i] == '.' && name[i - 1] != '/'
    && forall k :: i < k < |name| ==> name[k] != '.' && name[k] != '/'
  }

  lemma {:induction false} LastDotExactly(base: string)
    ensures var d := LastDot(base);
            (d >= 0 ==> base[d] == '.') && forall k :: d < k < |base| ==> base[k] != '.'
  {
    if base != "" && base[|base| - 1] != '.' {
      var n := |base| - 1;
      LastDotExactly(base[..n]);
      assert forall k :: 0 <= k < n ==> base[k] == base[..n][k];
    }
  }

  lemma {:induction false} BaseStartsAt(s: string)
    ensures var p := BaseStart(s);
            (forall i :: p <= i < |s| ==> s[i] != '/') && (p == 0 || s[p - 1] == '/')
  {
    if s != "" && s[|s| - 1] != '/' {
      BaseStartsAt(s[..|s| - 1]);
      assert forall i :: 0 <= i < |s| - 1 ==> s[i] == s[..|s| - 1][i];
    }
  }

  lemma OneExtension(name: string, i: int, j: int)
    requires ExtensionAt(name, i) && ExtensionAt(name, j)
    ensures i == j
  {
  }

  /** Where the last component begins and where its last dot is, said of the whole name. */
  lemma LastDotOfName(name: string) returns (b: int, e: int)
    ensures b == BaseStart(name) && e == b + LastDot(name[b..])
    ensures 0 <= b <= |name| && (b == 0 || name[b - 1] == '/') && b - 1 <= e < |name|
    ensures (forall k :: b <= k < |name| ==> name[k] != '/') && (forall k :: e < k < |name| ==> name[k] != '.')
    ensures e >= b ==> name[e] == '.'
  {
    b := BaseStart(name);
    var base := name[b..];
    e := b + LastDot(base);
    BaseStartsAt(name);
    LastDotExactly(base);
    forall k | e < k < |name|
      ensures name[k] != '.'
    {
      assert k >= b && name[k] == base[k - b];
    }
    if e >= b {
      assert name[e] == base[e - b];
    }
  }

  /** The extension taken is the extension, and there is none when none stands there. */
  lemma ExtensionExactly(name: string)
    ensures var i := SuffixStart(name);
            if i == |name| then forall j :: !ExtensionAt(name, j) else ExtensionAt(name, i)
  {
    var b, e := LastDotOfName(name);
    hide BaseStart;
    hide LastDot;
    if !(b < e < |name| - 1) {
      forall j
        ensures !ExtensionAt(name, j)
      {
        if ExtensionAt(name, j) { ExtensionIsLastDot(name, b, e, j); }
      }
    }
  }

  lemma ExtensionIsLastDot(name: string, b: int, e: int, j: int)
    requires 0 <= b <= |name| && (b == 0 || name[b - 1] == '/') && b - 1 <= e < |name|
    requires (forall k :: b <= k < |name| ==> name[k] != '/') && (forall k :: e < k < |name| ==> name[k] != '.')
    requires e >= b ==> name[e] == '.'
    requires ExtensionAt(name, j)
    ensures b < e < |name| - 1
  {
    assert name[j] == '.' && name[j - 1] != '/';
    assert b <= j <= e;
  }

  /** What an extension given by the content looks like. */
  predicate IsExtension(suffix: string) {
    |suffix| >= 2 && suffix[0] == '.' && forall k :: 0 < k < |suffix| ==> suffix[k] != '.' && suffix[k] != '/'
  }

  /** Extensions for the same content. */
  predicate SameContent(current: string, suffix: string) {
    current == suffix || (suffix == ".jpg" && current == ".jpeg") || (suffix == ".tif" && current == ".tiff")
  }

  lemma EquivalentExactly(current: string, suffix: string)
    ensures current in EquivalentTo(suffix) <==> SameContent(current, suffix)
  {
  }

  lemma NewExtension(stem: string, suffix: string)
    requires IsExtension(suffix) && stem != "" && stem[|stem| - 1] != '/'
    ensures SuffixOf(stem + suffix) == suffix
  {
    var name := stem + suffix;
    assert ExtensionAt(name, |stem|);
    ExtensionExactly(name);
    if SuffixStart(name) != |name| { OneExtension(name, SuffixStart(name), |stem|); }
    hide SuffixStart;
  }

  /** The new name of a member: the old one, if its extension is one for the content; or else the extension of the
      content is put in the place of its own. */
  lemma ExtensionFollows(name: string, suffix: string, w: World)
    requires IsExtension(suffix) && name != "" && name[|name| - 1] != '/' && |Lower(SuffixOf(name), w.lower)| == |SuffixOf(name)|
    ensures var renamed := Renamed(name, suffix, w);
            if SameContent(Lower(SuffixOf(name), w.lower), suffix) then renamed == name
            else renamed == name[..SuffixStart(name)] + suffix && SuffixOf(renamed) == suffix
  {
    var i := SuffixStart(name);
    EquivalentExactly(Lower(SuffixOf(name), w.lower), suffix);
    ExtensionExactly(name);
    hide SuffixStart;
    hide Lower;
    hide EquivalentTo;
    var stem := name[..i];
    if i < |name| {
      assert stem[|stem| - 1] == name[i - 1];
    } else {
      assert stem == name;
    }
    NewExtension(stem, suffix);
  }

  /** That the lower case of the extension is as long as the extension is needed: as many characters are cut off as the
      lower case has. */
  lemma LowerCaseDecidesTheCut(name: string, suffix: string, w: World)
    requires var current := Lower(SuffixOf(name), w.lower); current != "" && !SameContent(current, suffix) && |current| <= |name|
    ensures Renamed(name, suffix, w) == name[..SuffixStart(name)] + suffix <==> |Lower(SuffixOf(name), w.lower)| == |SuffixOf(name)|
  {
    var current := Lower(SuffixOf(name), w.lower);
    EquivalentExactly(current, suffix);
    hide SuffixStart;
    hide Lower;
    assert |SuffixOf(name)| == |name| - SuffixStart(name);
    assert |name[..|name| - |current|] + suffix| == |name| - |current| + |suffix|;
  }

  // ----- names -----

  /** A component that can stay as it is. */
  predicate Ordinary(part: string, w: World) {
    && part != "" && part != "." && part != ".." && !(|part| == 2 && part[1] == ':') && |part| <= 128
    && (forall i :: 0 <= i < |part| ==> part[i] != '/' && part[i] != '\\' && w.printable(part[i]))
    && !w.space(part[0]) && !w.space(part[|part| - 1])
  }

  predicate AllOrdinary(parts: seq<string>, w: World) { forall i :: 0 <= i < |parts| ==> Ordinary(parts[i], w) }

  lemma OrdinaryStays(part: string, w: World)
    requires Ordinary(part, w)
    ensures CleanPart(part, w) == part && !Dropped(part) && Cut(part) == part && Plain(part)
  {
    AllPrintable(part, w);
    assert StripLeft(part, w.space) == part;
    assert StripRight(part, w.space) == part;
  }

  lemma {:induction false} OrdinaryPartsStay(parts: seq<string>, w: World)
    requires AllOrdinary(parts, w)
    ensures SafeParts(parts, w) == parts
  {
    if parts != [] {
      OrdinaryStays(parts[0], w);
      hide CleanPart;
      hide Dropped;
      hide Cut;
      OrdinaryPartsStay(parts[1..], w);
      assert [parts[0]] + parts[1..] == parts;
    }
  }

  /** A name of ordinary components stays as it is. */
  lemma OrdinaryNameStays(parts: seq<string>, index: nat, w: World)
    requires parts != [] && AllOrdinary(parts, w)
    ensures SafeName(Join(parts), index, w) == Join(parts)
  {
    forall i | 0 <= i < |parts|
      ensures Plain(parts[i])
    {
      assert Ordinary(parts[i], w);
    }
    SplitJoin(parts);
    OrdinaryPartsStay(parts, w);
    NoBackslashToReplace(parts);
    hide Split;
    hide SafeParts;
  }

  lemma NoBackslashToReplace(parts: seq<string>)
    requires forall i :: 0 <= i < |parts| ==> Plain(parts[i])
    ensures Replace(Join(parts), '\\', '/') == Join(parts)
  {
    JoinKeepsOut(parts, '\\');
  }

  lemma {:induction false} SafePartsInTwo(a: seq<string>, b: seq<string>, w: World)
    ensures SafeParts(a + b, w) == SafeParts(a, w) + SafeParts(b, w)
  {
    hide CleanPart;
    hide Dropped;
    if a == [] {
      assert a + b == b;
    } else {
      assert (a + b)[1..] == a[1..] + b;
      SafePartsInTwo(a[1..], b, w);
    }
  }

  /** What becomes of one component: it loses what cannot be printed and white space at its ends; what then is nothing, a
      step in place or up, or a drive, goes; of a long one the first 128 characters stay. */
  lemma ComponentExactly(a: seq<string>, part: string, b: seq<string>, w: World)
    ensures var kept := CleanPart(part, w);
            && IsCore(Printable(part, w), kept, w.space)
            && SafeParts(a + [part] + b, w)
               == SafeParts(a, w)
                  + (if kept == "" || kept == "." || kept == ".." || (|kept| == 2 && kept[1] == ':') then []
                     else [if |kept| <= 128 then kept else kept[..128]])
                  + SafeParts(b, w)
  {
    StripIsCore(Printable(part, w), CleanPart(part, w), w.space);
    SafePartsInTwo(a, [part], w);
    SafePartsInTwo(a + [part], b, w);
    assert [part][1..] == [];
    assert SafeParts([part][1..], w) == [];
    hide Strip;
    hide IsCore;
  }

  lemma {:induction false} PrintableInTwo(a: string, b: string, w: World)
    ensures Printable(a + b, w) == Printable(a, w) + Printable(b, w)
  {
    if a == "" {
      assert a + b == b;
    } else {
      assert (a + b)[1..] == a[1..] + b;
      PrintableInTwo(a[1..], b, w);
    }
  }

  /** Exactly the characters that can be printed are left, in their order. */
  lemma PrintableExactly(a: string, c: char, b: string, w: World)
    ensures Printable(a + [c] + b, w) == Printable(a, w) + (if w.printable(c) then [c] else "") + Printable(b, w)
  {
    PrintableInTwo(a, [c], w);
    PrintableInTwo(a + [c], b, w);
    assert [c][1..] == "";
    assert Printable([c][1..], w) == "";
  }

  /** A name whose components all go is replaced by a numbered one; and it makes no difference which way the slashes
      lean. */
  lemma NamelessIsNumbered(name: string, index: nat, w: World)
    requires forall part :: part in Split(Replace(name, '\\', '/'), '/') ==> Dropped(CleanPart(part, w))
    ensures SafeName(name, index, w) == "file-" + Decimal(index)
  {
    NothingIsLeft(Split(Replace(name, '\\', '/'), '/'), w);
    hide Split;
    hide Replace;
    hide SafeParts;
  }

  lemma {:induction false} NothingIsLeft(parts: seq<string>, w: World)
    requires forall part :: part in parts ==> Dropped(CleanPart(part, w))
    ensures SafeParts(parts, w) == []
  {
    if parts != [] {
      assert parts[0] in parts;
      NothingIsLeft(parts[1..], w);
    }
  }

  lemma SlashesDoNotMatter(name: string, index: nat, w: World)
    ensures SafeName(Replace(name, '\\', '/'), index, w) == SafeName(name, index, w)
  {
    assert Replace(Replace(name, '\\', '/'), '\\', '/') == Replace(name, '\\', '/');
  }

  // ----- when a rebuild goes through -----

  /** File number `index` is unpacked and rebuilt. */
  predicate Remade(files: seq<Info>, selected: set<string>, index: nat)
    requires 1 <= index <= |files|
  {
    !IsOsMetadata(files[index - 1]) && files[index - 1].name in selected
  }

  /** Bytes that the first `k` files put out, and that they unpack. */
  function PutOut(files: seq<Info>, selected: set<string>, k: nat, w: World): nat
    requires k <= |files|
  {
    if k == 0 then 0
    else PutOut(files, selected, k - 1, w)
         + if Remade(files, selected, k) && w.cleaned(k).Rebuilt? then w.cleaned(k).size else 0
  }

  function Unpacked(files: seq<Info>, selected: set<string>, k: nat, w: World): nat
    requires k <= |files|
  {
    if k == 0 then 0
    else Unpacked(files, selected, k - 1, w)
         + if Remade(files, selected, k) && w.cleaned(k).Rebuilt? then Total(w.stream(k).chunks) + w.cleaned(k).unpacked else 0
  }

  /** Why file number `index` ends the rebuild, if it does: all of it must come out, be no more than declared, and fit
      into what is left of the budget; it must be rebuilt; and all that is put out must keep within 128 MiB. */
  function Obstacle(files: seq<Info>, selected: set<string>, unpacked: nat, index: nat, w: World): (f: Progress)
    requires 1 <= index <= |files|
  {
    var bytes := Total(w.stream(index).chunks);
    var room := unpacked + Unpacked(files, selected, index - 1, w);
    if !Remade(files, selected, index) then Going(0, 0)
    else if !w.stream(index).complete then Stopped(NotUnpacked)
    else if w.stream(index).chunks != [] && (bytes > files[index - 1].size || room + bytes > 268435456) then Stopped(NotUnpacked)
    else if w.cleaned(index).Refused? then Stopped(NotRebuilt)
    else if PutOut(files, selected, index - 1, w) + w.cleaned(index).size > 134217728 then Stopped(OutputTooLarge)
    else Going(0, 0)
  }

  ghost predicate GoesThrough(files: seq<Info>, selected: set<string>, unpacked: nat, k: nat, w: World)
    requires k <= |files|
  {
    forall index :: 1 <= index <= k ==> Obstacle(files, selected, unpacked, index, w).Going?
  }

  lemma GoesThroughMore(files: seq<Info>, selected: set<string>, unpacked: nat, k: nat, w: World)
    requires 1 <= k <= |files|
    ensures GoesThrough(files, selected, unpacked, k, w) <==>
            GoesThrough(files, selected, unpacked, k - 1, w) && Obstacle(files, selected, unpacked, k, w).Going?
  {
    hide Obstacle;
  }

  lemma AdvancedExactly(files: seq<Info>, selected: set<string>, unpacked: nat, k: nat, w: World)
    requires 1 <= k <= |files|
    ensures var before := Going(unpacked + Unpacked(files, selected, k - 1, w), PutOut(files, selected, k - 1, w));
            Advanced(before, files[k - 1], selected, k, w) ==
            if Obstacle(files, selected, unpacked, k, w).Stopped? then Obstacle(files, selected, unpacked, k, w)
            else Going(unpacked + Unpacked(files, selected, k, w), PutOut(files, selected, k, w))
  {
    hide IsOsMetadata;
    hide Pull;
    var stream := w.stream(k);
    var n := PulledExactly(stream.chunks, stream.complete, files[k - 1].size, unpacked + Unpacked(files, selected, k - 1, w), 0);
    assert stream.chunks[..|stream.chunks|] == stream.chunks;
    hide Total;
  }

  /** How far a rebuild gets: to the end, with the bytes of all its members, when nothing stands in the way; or else it
      ends for the reason of the first file in whose way something stands. */
  lemma {:induction false} ProgressExactly(files: seq<Info>, selected: set<string>, unpacked: nat, k: nat, w: World)
    requires k <= |files|
    ensures var p := ProgressUpTo(files, selected, unpacked, k, w);
            if GoesThrough(files, selected, unpacked, k, w)
            then p == Going(unpacked + Unpacked(files, selected, k, w), PutOut(files, selected, k, w))
            else exists index :: 1 <= index <= k && GoesThrough(files, selected, unpacked, index - 1, w)
                                 && p == Obstacle(files, selected, unpacked, index, w) && p.Stopped?
  {
    hide Obstacle;
    hide Advanced;
    if k > 0 {
      ProgressExactly(files, selected, unpacked, k - 1, w);
      GoesThroughMore(files, selected, unpacked, k, w);
      AdvancedExactly(files, selected, unpacked, k, w);
      StoppedStays(ProgressUpTo(files, selected, unpacked, k - 1, w), files[k - 1], selected, k, w);
      hide Unpacked;
      hide PutOut;
    }
  }

  lemma StoppedStays(p: Progress, info: Info, selected: set<string>, index: nat, w: World)
    ensures p.Stopped? ==> Advanced(p, info, selected, index, w) == p
  {
    hide IsOsMetadata;
    hide Pull;
  }

  /** When an archive is rebuilt: it was checked whole, no bomb, nothing encrypted and nothing left out; nothing stands
      in the way of its members; and the new archive is within 128 MiB. Otherwise the first of these that fails is the
      reason given. */
  lemma RebuiltExactly(r: Result, files: seq<Info>, inspected: (Inventory, Budget), zipped: nat, w: World)
    requires Decides(r, files, inspected, zipped, w)
    ensures var selected := NamesOf(inspected.0.members);
            r.Ok? <==>
              && !inspected.0.bomb && !inspected.0.encrypted && inspected.0.incomplete == []
              && GoesThrough(files, selected, inspected.1.unpacked, |files|, w) && zipped <= 134217728
    ensures (inspected.0.bomb || inspected.0.encrypted || inspected.0.incomplete != []) <==> r == Err(NotChecked)
    ensures var selected := NamesOf(inspected.0.members);
            r.Err? && r.failure != NotChecked ==>
              if GoesThrough(files, selected, inspected.1.unpacked, |files|, w) then r == Err(OutputTooLarge)
              else exists index :: 1 <= index <= |files| && GoesThrough(files, selected, inspected.1.unpacked, index - 1, w)
                                   && Obstacle(files, selected, inspected.1.unpacked, index, w) == Stopped(r.failure)
  {
    var selected := NamesOf(inspected.0.members);
    ProgressExactly(files, selected, inspected.1.unpacked, |files|, w);
    NoObstacleIsUnchecked(files, selected, inspected.1.unpacked, w);
    hide GoesThrough;
    hide ProgressUpTo;
    hide Built;
    hide NotesUpTo;
    hide NamesOf;
    hide Obstacle;
  }

  lemma NoObstacleIsUnchecked(files: seq<Info>, selected: set<string>, unpacked: nat, w: World)
    ensures forall index :: 1 <= index <= |files| ==> Obstacle(files, selected, unpacked, index, w) != Stopped(NotChecked)
  {
    hide IsOsMetadata;
    hide Total;
    hide Unpacked;
    hide PutOut;
  }

  // ----- what an entry is -----

  /** An entry of the new archive comes from a file that is no metadata of the archiver; it is empty exactly when the
      file was not selected, and then so is the file; and it has the first free of the names tried for the name shown,
      made safe, with the extension of its content if it was rebuilt. */
  lemma EntryExactly(r: Result, files: seq<Info>, inspected: (Inventory, Budget), zipped: nat, w: World, i: nat)
    requires r.Ok? && Decides(r, files, inspected, zipped, w) && i < |r.outputs|
    ensures var o, selected := r.outputs[i], NamesOf(inspected.0.members);
            && 1 <= o.source <= |files|
            && var info := files[o.source - 1];
               var safe := SafeName(w.shown(o.source), o.source, w);
               && !IsOsMetadata(info)
               && (o.empty <==> info.name !in selected) && (o.empty ==> info.size == 0 && !info.encrypted)
               && IsFirstFree(o.name, if !o.empty && w.cleaned(o.source).Rebuilt? then Renamed(safe, w.cleaned(o.source).suffix, w) else safe,
                              r.outputs[..i], w)
  {
    var selected := NamesOf(inspected.0.members);
    var outputs := r.outputs;
    assert Built(outputs, files, selected, |files|, w);
    hide Decides;
    hide IsOsMetadata;
    hide SafeName;
    hide Renamed;
    hide IsFirstFree;
    hide NamesDiffer;
    assert NamedAfter(outputs[i], files, selected, outputs[..i], w);
    SourcesAre(outputs);
    assert Sources(outputs)[i] == outputs[i].source;
    ListedIsCarried(files, selected, |files|, i);
  }

  // ----- what is noted -----

  /** What a file gives cause to note. */
  ghost predicate Notable(info: Info, selected: set<string>, index: nat, note: string, w: World) {
    var made := !IsOsMetadata(info) && info.name in selected;
    || (note == "drop_os_metadata" && IsOsMetadata(info))
    || (note == "drop_unscanned" && !IsOsMetadata(info) && !made && (info.size > 0 || info.encrypted))
    || (note == "normalize_paths" && made && w.cleaned(index).Rebuilt?
        && SafeName(w.shown(index), index, w) != Replace(w.shown(index), '\\', '/'))
    || (made && w.cleaned(index).Rebuilt? && exists t :: t in w.cleaned(index).transforms && note == "member:" + t)
  }

  lemma NoteExactly(info: Info, selected: set<string>, index: nat, note: string, w: World)
    ensures note in NoteOf(info, selected, index, w) <==> Notable(info, selected, index, note, w)
  {
    hide IsOsMetadata;
    hide SafeName;
    hide Replace;
  }

  ghost predicate NotableAt(files: seq<Info>, selected: set<string>, index: nat, note: string, w: World)
    requires 1 <= index <= |files|
  {
    Notable(files[index - 1], selected, index, note, w)
  }

  lemma {:induction false} NotesUpToExactly(files: seq<Info>, selected: set<string>, k: nat, note: string, w: World)
    requires k <= |files|
    ensures note in NotesUpTo(files, selected, k, w) <==>
            note == "rebuild_archive" || exists index :: 1 <= index <= k && NotableAt(files, selected, index, note, w)
  {
    hide Notable;
    hide NoteOf;
    if k > 0 {
      NotesUpToExactly(files, selected, k - 1, note, w);
      NoteExactly(files[k - 1], selected, k, note, w);
      assert NotableAt(files, selected, k, note, w) <==> note in NoteOf(files[k - 1], selected, k, w);
    }
  }

  /** What is noted about a rebuild: that it is one, and what its files give cause to. */
  lemma NotesExactly(r: Result, files: seq<Info>, inspected: (Inventory, Budget), zipped: nat, note: string, w: World)
    requires r.Ok? && Decides(r, files, inspected, zipped, w)
    ensures note in r.transforms <==>
            note == "rebuild_archive" || exists index :: 1 <= index <= |files| && NotableAt(files, NamesOf(inspected.0.members), index, note, w)
  {
    NotesUpToExactly(files, NamesOf(inspected.0.members), |files|, note, w);
    hide Built;
    hide NotableAt;
    hide NotesUpTo;
    hide ProgressUpTo;
  }
}
