/** How names of parts are put together: the files of relationships, and the targets inside the package. */
module DocxNames {
  import opened Text
  import opened DocxRebuild

  /** The relationships of a part lie in a directory beside it, and those of the package in one at its root. */
  lemma RelsNameExactly(dir: string, base: string)
    requires (dir == "" || dir[|dir| - 1] == '/') && '/' !in base
    ensures RelsName(dir + base) == dir + "_rels/" + base + ".rels"
    ensures RelsName("") == "_rels/.rels"
  {
    BaseStartAppend(dir, base);
    assert BaseStart(dir) == |dir|;
    hide BaseStart;
    assert (dir + base)[..|dir|] == dir && (dir + base)[|dir|..] == base;
    assert "_rels" + "/" == "_rels/";
    assert BaseStart("") == 0 by { NoBase(); }
  }

  lemma NoBase()
    ensures BaseStart("") == 0
  {
  }

  // ----- the way to a target -----

  predicate IsPlain(piece: string) { piece != "" && piece != "." && piece != ".." }

  predicate AllPlain(pieces: seq<string>) { forall i :: 0 <= i < |pieces| ==> IsPlain(pieces[i]) && '/' !in pieces[i] }

  lemma {:induction false} WalkInTwo(a: seq<string>, b: seq<string>, at: seq<string>)
    ensures Walk(a + b, at) == Walk(b, Walk(a, at))
  {
    if a == [] {
      assert a + b == b;
    } else {
      assert (a + b)[1..] == a[1..] + b;
      if a[0] == "" || a[0] == "." {
        WalkInTwo(a[1..], b, at);
      } else if a[0] == ".." {
        WalkInTwo(a[1..], b, if at == [] then [] else at[..|at| - 1]);
      } else {
        WalkInTwo(a[1..], b, at + [a[0]]);
      }
    }
  }

  lemma WalkOne(piece: string, at: seq<string>)
    ensures Walk([piece], at) == if piece == "" || piece == "." then at
                                 else if piece == ".." then (if at == [] then [] else at[..|at| - 1])
                                 else at + [piece]
  {
    assert [piece][1..] == [];
  }

  /** Plain steps are taken one after the other. */
  lemma {:induction false} PlainStepsAreTaken(pieces: seq<string>, at: seq<string>)
    requires AllPlain(pieces)
    ensures Walk(pieces, at) == at + pieces
  {
    if pieces == [] {
      assert at + [] == at;
    } else {
      PlainStepsAreTaken(pieces[1..], at + [pieces[0]]);
      assert at + [pieces[0]] + pieces[1..] == at + pieces;
    }
  }

  /** Empty steps and steps on the spot make no difference. */
  lemma EmptyStepsAreSkipped(a: seq<string>, piece: string, b: seq<string>, at: seq<string>)
    requires piece == "" || piece == "."
    ensures Walk(a + [piece] + b, at) == Walk(a + b, at)
  {
    WalkInTwo(a + [piece], b, at);
    WalkInTwo(a, [piece], at);
    WalkInTwo(a, b, at);
    WalkOne(piece, Walk(a, at));
  }

  /** A step down and up again makes no difference, and at the root there is no step up. */
  lemma DownAndUpCancels(a: seq<string>, piece: string, b: seq<string>, at: seq<string>)
    requires IsPlain(piece)
    ensures Walk(a + [piece, ".."] + b, at) == Walk(a + b, at)
    ensures Walk([".."] + b, []) == Walk(b, [])
  {
    var here := Walk(a, at);
    assert [piece, ".."] == [piece] + [".."];
    WalkInTwo(a + [piece, ".."], b, at);
    WalkInTwo(a, [piece, ".."], at);
    WalkInTwo([piece], [".."], here);
    WalkInTwo(a, b, at);
    WalkInTwo([".."], b, []);
    WalkOne(piece, here);
    WalkOne("..", here + [piece]);
    WalkOne("..", []);
    hide Walk;
    assert (here + [piece])[..|here + [piece]| - 1] == here;
  }

  // ----- targets -----

  lemma {:induction false} SplitJoined(parts: seq<string>)
    requires parts != [] && forall i :: 0 <= i < |parts| ==> '/' !in parts[i]
    ensures Split(Joined(parts), '/') == parts
  {
    var n := |parts| - 1;
    if n == 0 {
      SplitPlain(parts[0], '/');
    } else {
      SplitJoined(parts[..n]);
      SplitSuffix(Joined(parts[..n]), parts[n], '/');
      assert Joined(parts) == Joined(parts[..n]) + "/" + parts[n];
      assert parts[..n] + [parts[n]] == parts;
    }
  }

  lemma {:induction false} PlainAreSignificant(pieces: seq<string>)
    requires AllPlain(pieces)
    ensures Significant(pieces) == pieces
  {
    if pieces != [] { PlainAreSignificant(pieces[1..]); }
  }

  lemma DirectoryExactly(dirs: seq<string>, file: string)
    requires AllPlain(dirs) && AllPlain([file])
    ensures DirectoryOf(Joined(dirs + [file])) == dirs
  {
    var parts := dirs + [file];
    assert [file][0] == file;
    assert AllPlain(parts);
    SplitJoined(parts);
    PlainAreSignificant(parts);
    assert parts[..|parts| - 1] == dirs;
  }

  lemma JoinedStarts(pieces: seq<string>)
    requires pieces != [] && pieces[0] != ""
    ensures Joined(pieces) != "" && Joined(pieces)[0] == pieces[0][0]
  {
    if |pieces| > 1 { JoinedStarts(pieces[..|pieces| - 1]); }
  }

  /** A target that does not begin with a slash is looked for from the directory of its source, step by step. */
  lemma RelativeTarget(dirs: seq<string>, file: string, pieces: seq<string>)
    requires AllPlain(dirs) && AllPlain([file])
    requires pieces != [] && pieces[0] != "" && forall i :: 0 <= i < |pieces| ==> '/' !in pieces[i]
    ensures Resolved(Joined(dirs + [file]), Joined(pieces)) == Joined(Walk(dirs + pieces, []))
    ensures AllPlain(pieces) ==> Resolved(Joined(dirs + [file]), Joined(pieces)) == Joined(dirs + pieces)
  {
    hide Walk;
    DirectoryExactly(dirs, file);
    SplitJoined(pieces);
    JoinedStarts(pieces);
    assert pieces[0][0] in pieces[0];
    if AllPlain(pieces) {
      PlainStepsAreTaken(dirs + pieces, []);
      assert [] + (dirs + pieces) == dirs + pieces;
    }
  }

  /** A target that begins with slashes is the name behind them, whatever its source. */
  lemma {:induction false} TargetFromRoot(source: string, slashes: string, name: string)
    requires slashes != "" && (forall i :: 0 <= i < |slashes| ==> slashes[i] == '/') && (name != "" ==> name[0] != '/')
    ensures Resolved(source, slashes + name) == name
  {
    SlashesAreDropped(slashes, name);
  }

  lemma {:induction false} SlashesAreDropped(slashes: string, name: string)
    requires (forall i :: 0 <= i < |slashes| ==> slashes[i] == '/') && (name != "" ==> name[0] != '/')
    ensures DropSlashes(slashes + name) == name
  {
    if slashes == "" {
      assert slashes + name == name;
    } else {
      assert (slashes + name)[1..] == slashes[1..] + name;
      SlashesAreDropped(slashes[1..], name);
    }
  }
}
