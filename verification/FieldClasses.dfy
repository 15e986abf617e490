/** What an instruction is called, said of its characters, and which class that gives its field. */
module FieldClasses {
  import opened Fields

  /** The characters that count as white space, by number. */
  const WHITE_SPACE: set<int> := {
    9, 10, 11, 12, 13, 28, 29, 30, 31, 32, 133, 160, 5760, 8192, 8193, 8194, 8195, 8196, 8197, 8198, 8199, 8200,
    8201, 8202, 8232, 8233, 8239, 8287, 12288}

  predicate LeadsIn(c: char) { c as int in WHITE_SPACE || c == '"' || c == '\'' }

  predicate IsCapitalOf(capital: char, c: char) {
    'A' <= capital <= 'Z' && (c == capital || c as int == capital as int + 32)
  }

  /** From `p` to `q` stands `name`, in letters of either case; before it white space and quotes, after it no letter. */
  predicate NameAt(instruction: string, p: nat, q: nat, name: string) {
    && p < q <= |instruction| && |name| == q - p
    && (forall i :: 0 <= i < p ==> LeadsIn(instruction[i]))
    && (forall i :: 0 <= i < |name| ==> IsCapitalOf(name[i], instruction[p + i]))
    && (q < |instruction| ==> forall c :: !IsCapitalOf(c, instruction[q]))
  }

  ghost predicate IsCalled(instruction: string, name: string) {
    exists p: nat, q: nat :: NameAt(instruction, p, q, name)
  }

  ghost predicate CalledOneOf(instruction: string, names: set<string>) {
    exists name :: name in names && IsCalled(instruction, name)
  }

  // ----- the name that is computed is the name -----

  lemma SpacesExactly(c: char)
    ensures IsSpace(c) <==> c as int in WHITE_SPACE
  {
  }

  lemma LettersExactly(c: char)
    ensures IsLetter(c) ==> IsCapitalOf(Upper(c), c)
    ensures forall capital :: IsCapitalOf(capital, c) ==> IsLetter(c) && capital == Upper(c)
  {
  }

  lemma {:induction false} LeadSkipped(s: string) returns (p: nat)
    ensures p <= |s| && AfterLead(s) == s[p..]
    ensures forall i :: 0 <= i < p ==> LeadsIn(s[i])
    ensures p < |s| ==> !LeadsIn(s[p])
  {
    if s != "" { SpacesExactly(s[0]); }
    if s != "" && LeadsIn(s[0]) {
      var p' := LeadSkipped(s[1..]);
      p := p' + 1;
      assert forall i :: 0 < i < p ==> s[i] == s[1..][i - 1];
    } else {
      p := 0;
    }
  }

  lemma {:induction false} WordRead(s: string)
    ensures var word := LeadingWord(s);
            && |word| <= |s| && (forall i :: 0 <= i < |word| ==> IsCapitalOf(word[i], s[i]))
            && (|word| < |s| ==> !IsLetter(s[|word|]))
  {
    if s != "" && IsLetter(s[0]) {
      LettersExactly(s[0]);
      WordRead(s[1..]);
      var rest := LeadingWord(s[1..]);
      assert LeadingWord(s) == [Upper(s[0])] + rest;
      assert forall i :: 0 < i <= |rest| ==> s[i] == s[1..][i - 1];
    }
  }

  lemma LettersDoNotLead(c: char)
    requires IsLetter(c)
    ensures !LeadsIn(c)
  {
  }

  lemma LetterInside(s: string, p: nat, q: nat, name: string, i: nat)
    requires NameAt(s, p, q, name) && p <= i < q
    ensures exists c :: IsCapitalOf(c, s[i])
  {
    assert IsCapitalOf(name[i - p], s[p + (i - p)]);
  }

  /** An instruction has one name at most. */
  lemma OneName(s: string, p: nat, q: nat, name: string, p': nat, q': nat, name': string)
    requires NameAt(s, p, q, name) && NameAt(s, p', q', name')
    ensures p == p' && q == q' && name == name'
  {
    hide LeadsIn;
    assert IsLetter(s[p]) && IsLetter(s[p']) by {
      LettersExactly(s[p]);
      LettersExactly(s[p']);
      assert IsCapitalOf(name[0], s[p]) && IsCapitalOf(name'[0], s[p']);
    }
    LettersDoNotLead(s[p]);
    LettersDoNotLead(s[p']);
    assert p == p';
    if q < q' { LetterInside(s, p, q', name', q); }
    if q' < q { LetterInside(s, p, q, name, q'); }
    forall i | 0 <= i < |name|
      ensures name[i] == name'[i]
    {
      LettersExactly(s[p + i]);
    }
  }

  /** The name taken is the one that stands there; none is taken when none does. */
  lemma NameExactly(instruction: string, name: string)
    requires name != ""
    ensures FieldName(instruction) == name <==> IsCalled(instruction, name)
  {
    var s := instruction;
    var p := LeadSkipped(s);
    WordRead(s[p..]);
    var word := LeadingWord(s[p..]);
    var q := p + |word|;
    assert FieldName(s) == word;
    if q < |s| {
      assert s[q] == s[p..][|word|];
      LettersExactly(s[q]);
    }
    if word != "" {
      assert forall i :: 0 <= i < |word| ==> s[p + i] == s[p..][i];
      assert NameAt(s, p, q, word);
    }
    if IsCalled(s, name) {
      var p': nat, q': nat :| NameAt(s, p', q', name);
      if word == "" {
        assert IsCapitalOf(name[0], s[p']);
        LettersExactly(s[p']);
        LettersDoNotLead(s[p']);
      } else {
        OneName(s, p, q, word, p', q', name);
      }
    }
  }

  lemma CalledExactly(instruction: string, names: set<string>)
    requires "" !in names
    ensures CalledOneOf(instruction, names) <==> FieldName(instruction) in names
  {
    hide FieldName;
    hide IsCalled;
    forall name | name in names
      ensures FieldName(instruction) == name <==> IsCalled(instruction, name)
    {
      NameExactly(instruction, name);
    }
  }

  // ----- the classes -----

  /** Starts a program of the reader's machine. */
  ghost predicate NamesProgram(instruction: string) { CalledOneOf(instruction, {"DDE", "DDEAUTO"}) }

  /** Fetches a file. */
  ghost predicate NamesFile(instruction: string) {
    CalledOneOf(instruction, {"INCLUDETEXT", "INCLUDEPICTURE", "INCLUDE", "LINK", "IMPORT"})
  }

  ghost predicate NamesListed(instruction: string) {
    CalledOneOf(instruction, SAFE_FIELDS) && !NamesProgram(instruction) && !NamesFile(instruction)
  }

  /** Which fields are of which class: a field that begins with a field is obfuscated; any other goes by its name. */
  lemma ClassExactly(instruction: string, nested: bool)
    ensures Classify(instruction, nested) == Obfuscated <==> nested
    ensures Classify(instruction, nested) == Dde <==> !nested && NamesProgram(instruction)
    ensures Classify(instruction, nested) == Include <==> !nested && NamesFile(instruction)
    ensures Classify(instruction, nested) == Safe <==> !nested && NamesListed(instruction)
    ensures Classify(instruction, nested) == Other <==>
            !nested && !NamesProgram(instruction) && !NamesFile(instruction) && !NamesListed(instruction)
  {
    CalledExactly(instruction, DDE_FIELDS);
    CalledExactly(instruction, INCLUDE_FIELDS);
    CalledExactly(instruction, SAFE_FIELDS);
    hide FieldName;
    hide CalledOneOf;
    hide IsCalled;
  }
}
