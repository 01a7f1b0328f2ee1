/** frontend/renderer.js: the `Prénom NOM` name rule and the comma-separated lists typed into
    prompts and forms. */
module NameRules {
  import opened Wrappers
  import opened Text
  import opened Collections

  /** A JavaScript value handed to `isValidNom`: a string, or anything else. */
  datatype JsValue = JsString(s: string) | NotString

  predicate IsUpper(c: char) { 'A' <= c <= 'Z' }
  predicate IsLower(c: char) { 'a' <= c <= 'z' }

  /** The states of a matcher for `/^[A-Z][a-z]* [A-Z][A-Z-]*$/`. */
  datatype NomState = Start | FirstName | AfterSpace | LastName | Dead

  function NomStep(q: NomState, c: char): NomState {
    match q
    case Start => if IsUpper(c) then FirstName else Dead
    case FirstName => if IsLower(c) then FirstName else if c == ' ' then AfterSpace else Dead
    case AfterSpace => if IsUpper(c) then LastName else Dead
    case LastName => if IsUpper(c) || c == '-' then LastName else Dead
    case Dead => Dead
  }

  function NomRun(q: NomState, s: string): NomState
    decreases s
  {
    if s == [] then q else NomRun(NomStep(q, s[0]), s[1..])
  }

  /** The regular expression test, run by the matcher. */
  predicate NomMatches(s: string) {
    NomRun(Start, s) == LastName
  }

  /** The shape the regular expression describes: one capital, lower-case letters, one space,
      one capital, then capitals and hyphens; `k` is the position of the space. */
  predicate NomShapeAt(s: string, k: int) {
    1 <= k < |s| - 1 && IsUpper(s[0]) && s[k] == ' ' && IsUpper(s[k + 1])
    && (forall i :: 1 <= i < k ==> IsLower(s[i]))
    && (forall i :: k + 1 < i < |s| ==> IsUpper(s[i]) || s[i] == '-')
  }

  predicate NomShape(s: string) {
    exists k :: 0 <= k < |s| && NomShapeAt(s, k)
  }

  /** `isValidNom`: a string whose trimmed form matches. */
  predicate IsValidNom(v: JsValue) {
    v.JsString? && NomMatches(Trim(v.s))
  }

  // ---------- the matcher accepts exactly the shape ----------

  lemma {:induction false} DeadStays(s: string)
    ensures NomRun(Dead, s) == Dead
  {
    if s != [] {
      DeadStays(s[1..]);
    }
  }

  lemma {:induction false} LastNameRun(s: string)
    ensures NomRun(LastName, s) == LastName <==> forall i :: 0 <= i < |s| ==> IsUpper(s[i]) || s[i] == '-'
  {
    if s != [] {
      LastNameRun(s[1..]);
      if !(IsUpper(s[0]) || s[0] == '-') {
        DeadStays(s[1..]);
      }
      assert forall i :: 1 <= i < |s| ==> s[1..][i - 1] == s[i];
    }
  }

  /** What the matcher still has to see once it has read the first capital: lower-case letters,
      the space at `k`, a capital, then capitals and hyphens. */
  predicate AfterFirstAt(t: string, k: int) {
    0 <= k < |t| - 1 && t[k] == ' ' && IsUpper(t[k + 1])
    && (forall i :: 0 <= i < k ==> IsLower(t[i]))
    && (forall i :: k + 1 < i < |t| ==> IsUpper(t[i]) || t[i] == '-')
  }

  lemma {:induction false} FirstNameRun(t: string)
    ensures NomRun(FirstName, t) == LastName <==> exists k :: 0 <= k < |t| && AfterFirstAt(t, k)
  {
    if t != [] {
      var u := t[1..];
      assert forall i :: 1 <= i < |t| ==> u[i - 1] == t[i];
      if IsLower(t[0]) {
        FirstNameRun(u);
        if NomRun(FirstName, t) == LastName {
          var k :| 0 <= k < |u| && AfterFirstAt(u, k);
          assert AfterFirstAt(t, k + 1);
        }
        if exists k :: 0 <= k < |t| && AfterFirstAt(t, k) {
          var k :| 0 <= k < |t| && AfterFirstAt(t, k);
          assert k != 0;
          assert AfterFirstAt(u, k - 1);
        }
      } else if t[0] == ' ' {
        if |u| > 0 && IsUpper(u[0]) {
          LastNameRun(u[1..]);
          assert forall i :: 1 <= i < |u| ==> u[1..][i - 1] == u[i];
          assert NomRun(FirstName, t) == NomRun(AfterSpace, u) == NomRun(LastName, u[1..]);
          if NomRun(FirstName, t) == LastName {
            assert forall i :: 2 <= i < |t| ==> u[1..][i - 2] == t[i];
            assert AfterFirstAt(t, 0);
          }
        } else if |u| > 0 {
          DeadStays(u[1..]);
        }
        forall k | 0 < k < |t| ensures !AfterFirstAt(t, k) {
          assert !IsLower(t[0]);
        }
      } else {
        DeadStays(u);
        forall k | 0 <= k < |t| ensures !AfterFirstAt(t, k) {
          assert !IsLower(t[0]) && t[0] != ' ';
        }
      }
    }
  }

  /** The matcher accepts exactly the strings of the shape. */
  lemma NomMatchesIff(s: string)
    ensures NomMatches(s) <==> NomShape(s)
  {
    if s != [] && IsUpper(s[0]) {
      var t := s[1..];
      FirstNameRun(t);
      assert forall i :: 1 <= i < |s| ==> t[i - 1] == s[i];
      if NomMatches(s) {
        var k :| 0 <= k < |t| && AfterFirstAt(t, k);
        assert NomShapeAt(s, k + 1);
      }
      if NomShape(s) {
        var k :| 0 <= k < |s| && NomShapeAt(s, k);
        assert AfterFirstAt(t, k - 1);
      }
    } else if s != [] {
      DeadStays(s[1..]);
    }
  }

  /** `isValidNom(v)` holds exactly for strings whose trimmed form has the shape. */
  lemma IsValidNomIff(v: JsValue)
    ensures IsValidNom(v) <==> v.JsString? && NomShape(Trim(v.s))
  {
    if v.JsString? {
      NomMatchesIff(Trim(v.s));
    }
  }

  /** The example of the name prompt is accepted. */
  lemma NomExampleAccepted(s: string)
    requires s == "Jean HEUDE-LEGRANG"
    ensures IsValidNom(JsString(s))
  {
    TrimTrimmed(s);
    NomMatchesIff(s);
    assert NomShapeAt(s, 4);
  }

  /** A hyphenated first name is refused: only letters may stand between the first capital and
      the space. */
  lemma NomExampleHyphenatedFirstName(s: string)
    requires s == "Jean-Pierre DUPONT"
    ensures !IsValidNom(JsString(s))
  {
    TrimTrimmed(s);
    NomMatchesIff(s);
    forall k | 0 <= k < |s| ensures !NomShapeAt(s, k) {
      if k > 4 {
        assert !IsLower(s[4]);
      }
    }
  }

  // ---------- comma lists ----------

  /** `.map(s => s.trim())`. */
  function TrimAll(parts: seq<string>): (r: seq<string>)
    ensures |r| == |parts|
    ensures forall k :: 0 <= k < |parts| ==> r[k] == Trim(parts[k])
  {
    seq(|parts|, k requires 0 <= k < |parts| => Trim(parts[k]))
  }

  predicate NonEmpty(s: string) {
    |s| > 0
  }

  /** `s.split(',').map(s => s.trim()).filter(s => s.length > 0)`. */
  function ParseCommaList(s: string): seq<string> {
    Filter(TrimAll(Split(s, ',')), NonEmpty)
  }

  /** `str ? <parse> : []` for a prompt answer that may be null. */
  function ParseOptionalList(s: Option<string>): seq<string> {
    if s.Some? && s.value != "" then ParseCommaList(s.value) else []
  }

  /** Trimming keeps a string free of any character it was free of. */
  lemma TrimKeepsAbsent(s: string, c: char)
    requires c !in s
    ensures c !in Trim(s)
  {
    TrimIsSlice(s);
    var a := |s| - |TrimStart(s)|;
    AbsentFromSlice(s, a, a + |Trim(s)|, c);
  }

  /** A slice holds no element its sequence lacks. */
  lemma AbsentFromSlice<T>(s: seq<T>, a: nat, b: nat, c: T)
    requires a <= b <= |s| && c !in s
    ensures c !in s[a..b]
  {
    var r := s[a..b];
    forall j | 0 <= j < |r| ensures r[j] != c {
      assert r[j] == s[a + j] && s[a + j] in s;
    }
  }

  /** Every parsed entry is non-empty, trimmed and free of commas, and is the trimmed text of one
      comma-separated field of the input. */
  lemma ParseCommaListEntries(s: string, x: string)
    requires x in ParseCommaList(s)
    ensures NonEmpty(x) && Trimmed(x) && ',' !in x
    ensures exists j :: 0 <= j < |Split(s, ',')| && x == Trim(Split(s, ',')[j])
  {
    var fields := Split(s, ',');
    var trimmed := TrimAll(fields);
    FilterMember(trimmed, NonEmpty, x);
    var j :| 0 <= j < |trimmed| && trimmed[j] == x;
    TrimSlice(fields[j]);
    TrimKeepsAbsent(fields[j], ',');
  }

  /** Trimming entries that are already trimmed changes nothing. */
  lemma TrimAllTrimmed(parts: seq<string>)
    requires forall k :: 0 <= k < |parts| ==> Trimmed(parts[k])
    ensures TrimAll(parts) == parts
  {
    var t := TrimAll(parts);
    forall k | 0 <= k < |parts| ensures t[k] == parts[k] {
      TrimTrimmed(parts[k]);
    }
  }

  /** Parsing a list written with commas gives back its entries, in their order. */
  lemma ParseJoin(parts: seq<string>)
    requires forall k :: 0 <= k < |parts| ==> NonEmpty(parts[k]) && Trimmed(parts[k]) && ',' !in parts[k]
    ensures ParseCommaList(Join(parts, ',')) == parts
  {
    if parts == [] {
      assert Join(parts, ',') == "";
      assert Split("", ',') == [""];
      assert Trim("") == "";
      assert TrimAll([""]) == [""];
      assert Filter([""], NonEmpty) == [];
    } else {
      SplitJoin(parts, ',');
      TrimAllTrimmed(parts);
      FilterAll(parts, NonEmpty);
    }
  }

  /** A null answer and an empty one both give the empty list; any other answer is parsed. */
  lemma ParseOptionalListAgrees(s: Option<string>)
    ensures ParseOptionalList(s) == if s.Some? then ParseCommaList(s.value) else []
  {
    if s == Some("") {
      ParseJoin([]);
      assert Join([], ',') == "";
    }
  }

  /** What submitting a list of names does. */
  datatype ListOutcome =
    | NoValidName                    // "Aucun nom valide dans la liste !"
    | InvalidNames(names: seq<string>) // "Noms invalides ..." with these names
    | CreateAll(names: seq<string>)    // one person per name, in order

  predicate InvalidEntry(n: string) {
    !IsValidNom(JsString(n))
  }

  /** `addPersonList` and the list form: nothing is created when the list is empty or when any
      entry is invalid (then the invalid entries are reported, in order). */
  function AddPersonList(noms: string): (r: ListOutcome)
    ensures r.NoValidName? <==> ParseCommaList(noms) == []
    ensures r.CreateAll? <==>
              ParseCommaList(noms) != [] && forall n :: n in ParseCommaList(noms) ==> IsValidNom(JsString(n))
    ensures r.CreateAll? ==> r.names == ParseCommaList(noms)
    ensures r.InvalidNames? ==> r.names == Filter(ParseCommaList(noms), InvalidEntry) && r.names != []
  {
    var names := ParseCommaList(noms);
    if names == [] then NoValidName
    else
      var invalid := Filter(names, InvalidEntry);
      if invalid == [] then
        assert forall n :: n in names ==> IsValidNom(JsString(n)) by {
          forall n | n in names ensures IsValidNom(JsString(n)) {
            FilterMember(names, InvalidEntry, n);
          }
        }
        CreateAll(names)
      else
        assert exists n :: n in names && !IsValidNom(JsString(n)) by {
          FilterMember(names, InvalidEntry, invalid[0]);
        }
        InvalidNames(invalid)
  }
}
