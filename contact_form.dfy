/** The contact-form validator: six rules over the trimmed field values, and a pass over
    the fields in order that flags each invalid one and remembers the first. */
module ContactForm {
  import opened Wrappers

  // ---------------------------------------------------------------------------
  // Characters and trimming
  // ---------------------------------------------------------------------------

  /** The white space and line terminators of ECMAScript: what `String.prototype.trim`
      strips and what the regular-expression class `\s` matches. */
  predicate IsSpace(c: char) {
    c == '\t' || c == '\n' || c == '\U{B}' || c == '\U{C}' || c == '\r' || c == ' ' ||
    c == '\U{A0}' || c == '\U{1680}' || ('\U{2000}' <= c <= '\U{200A}') ||
    c == '\U{2028}' || c == '\U{2029}' || c == '\U{202F}' || c == '\U{205F}' ||
    c == '\U{3000}' || c == '\U{FEFF}'
  }

  /** `s` without its leading white space. */
  function TrimStart(s: string): string {
    if s != [] && IsSpace(s[0]) then TrimStart(s[1..]) else s
  }

  /** `s` without its trailing white space. */
  function TrimEnd(s: string): string {
    if s != [] && IsSpace(s[|s| - 1]) then TrimEnd(s[..|s| - 1]) else s
  }

  /** `TrimStart` removes a prefix of white space and stops at the first other character. */
  lemma {:induction false} TrimStartCuts(s: string)
    ensures var r := TrimStart(s);
            |r| <= |s| && r == s[|s| - |r|..] &&
            (forall i :: 0 <= i < |s| - |r| ==> IsSpace(s[i])) &&
            (r != [] ==> !IsSpace(r[0]))
  {
    if s != [] && IsSpace(s[0]) {
      TrimStartCuts(s[1..]);
      var r := TrimStart(s);
      forall i | 0 <= i < |s| - |r|
        ensures IsSpace(s[i])
      {
        if i > 0 {
          assert s[i] == s[1..][i - 1];
        }
      }
    }
  }

  /** `TrimEnd` removes a suffix of white space and stops at the last other character. */
  lemma {:induction false} TrimEndCuts(s: string)
    ensures var r := TrimEnd(s);
            |r| <= |s| && r == s[..|r|] &&
            (forall i :: |r| <= i < |s| ==> IsSpace(s[i])) &&
            (r != [] ==> !IsSpace(r[|r| - 1]))
  {
    if s != [] && IsSpace(s[|s| - 1]) {
      TrimEndCuts(s[..|s| - 1]);
      var r := TrimEnd(s);
      forall i | |r| <= i < |s|
        ensures IsSpace(s[i])
      {
        if i < |s| - 1 {
          assert s[i] == s[..|s| - 1][i];
        }
      }
    }
  }

  /** `r` is `s` with white space only before position `i` and after `r` ends. */
  ghost predicate CutFrom(s: string, r: string, i: int) {
    0 <= i && i + |r| <= |s| && r == s[i..i + |r|] &&
    (forall k :: 0 <= k < i ==> IsSpace(s[k])) &&
    (forall k :: i + |r| <= k < |s| ==> IsSpace(s[k]))
  }

  /** `v.trim()`: the middle of `s` left once the white space at both ends is removed. */
  function Trim(s: string): string {
    TrimEnd(TrimStart(s))
  }

  /** Trimming cuts white space only, from both ends, and leaves none at either end. */
  lemma TrimCutsSpace(s: string)
    ensures exists i :: CutFrom(s, Trim(s), i)
    ensures var r := Trim(s); r != [] ==> !IsSpace(r[0]) && !IsSpace(r[|r| - 1])
  {
    var t := TrimStart(s);
    TrimStartCuts(s);
    TrimEndCuts(t);
    var r := TrimEnd(t);
    var i := |s| - |t|;
    assert r == s[i..i + |r|] by {
      assert forall j :: 0 <= j < |r| ==> r[j] == t[j] == s[i + j];
    }
    forall k | i + |r| <= k < |s|
      ensures IsSpace(s[k])
    {
      assert s[k] == t[k - i];
    }
    assert CutFrom(s, Trim(s), i);
  }

  /** A string with no white space at either end is its own trim; in particular trimming
      twice is trimming once. */
  lemma TrimIdempotent(s: string)
    ensures (s == [] || (!IsSpace(s[0]) && !IsSpace(s[|s| - 1]))) ==> Trim(s) == s
    ensures Trim(Trim(s)) == Trim(s)
  {
    var r := Trim(s);
    TrimCutsSpace(s);
    assert TrimStart(r) == r;
    assert TrimEnd(r) == r;
  }

  /** `.length` of a JavaScript string: UTF-16 code units, two for a character outside the
      Basic Multilingual Plane. */
  function Utf16Length(s: string): (n: nat)
    ensures |s| <= n <= 2 * |s|
  {
    if s == [] then 0
    else Utf16Length(s[..|s| - 1]) + (if s[|s| - 1] as int > 0xFFFF then 2 else 1)
  }

  // ---------------------------------------------------------------------------
  // The field rules
  // ---------------------------------------------------------------------------

  /** `[\d\s+()-]`: a digit, white space, or one of `+ ( ) -`. */
  predicate IsPhoneChar(c: char) {
    ('0' <= c <= '9') || IsSpace(c) || c == '+' || c == '(' || c == ')' || c == '-'
  }

  /** `/^[\d\s+()-]{6,}$/`: six or more phone characters and nothing else (all of them are
      single UTF-16 code units, so characters and code units agree here). */
  predicate IsPhone(t: string) {
    |t| >= 6 && forall i :: 0 <= i < |t| ==> IsPhoneChar(t[i])
  }

  /** `[^\s@]` */
  predicate IsAddressChar(c: char) {
    !IsSpace(c) && c != '@'
  }

  /** Every character of `t` from `a` up to `b` is an address character. */
  predicate AddressRun(t: string, a: int, b: int)
    requires 0 <= a <= b <= |t|
  {
    forall k :: a <= k < b ==> IsAddressChar(t[k])
  }

  /** `/^[^\s@]+@[^\s@]+\.[^\s@]+$/` read as a split of `t`: a non-empty run, `@` at `i`,
      a non-empty run, `.` at `j`, a non-empty run, no run holding white space or `@`. */
  ghost predicate EmailPattern(t: string) {
    exists i, j :: 0 < i && i + 1 < j && j + 1 < |t| && t[i] == '@' && t[j] == '.' &&
                   AddressRun(t, 0, i) && AddressRun(t, i + 1, j) && AddressRun(t, j + 1, |t|)
  }

  /** The first position at or after `from` that holds `c`. */
  function FindChar(t: string, c: char, from: nat): (r: Option<nat>)
    requires from <= |t|
    ensures r.Some? ==> from <= r.value < |t| && t[r.value] == c
    decreases |t| - from
  {
    if from == |t| then None
    else if t[from] == c then Some(from)
    else FindChar(t, c, from + 1)
  }

  /** The search finds the first occurrence, and `None` means there is none. */
  lemma {:induction false} FindCharFirst(t: string, c: char, from: nat)
    requires from <= |t|
    ensures var r := FindChar(t, c, from);
            (r.Some? ==> forall k :: from <= k < r.value ==> t[k] != c) &&
            (r.None? ==> forall k :: from <= k < |t| ==> t[k] != c)
    decreases |t| - from
  {
    if from < |t| && t[from] != c {
      FindCharFirst(t, c, from + 1);
    }
  }

  /** The e-mail check as a decision: the first `@` is not at the start, no white space and
      no second `@` anywhere, and after the `@` a dot with something on both sides. */
  predicate IsEmail(t: string) {
    match FindChar(t, '@', 0)
    case None => false
    case Some(i) =>
      0 < i && AddressRun(t, 0, i) && AddressRun(t, i + 1, |t|) &&
      exists j :: i + 1 < j < |t| - 1 && t[j] == '.'
  }

  /** Address runs split and join around an address character. */
  lemma AddressRunSplit(t: string, a: int, m: int, b: int)
    requires 0 <= a <= m < b <= |t|
    ensures AddressRun(t, a, b) <==> AddressRun(t, a, m) && IsAddressChar(t[m]) && AddressRun(t, m + 1, b)
  {
  }

  /** The decision agrees with the pattern on every string. */
  lemma EmailDecision(t: string)
    ensures IsEmail(t) <==> EmailPattern(t)
  {
    FindCharFirst(t, '@', 0);
    if IsEmail(t) {
      var i := FindChar(t, '@', 0).value;
      var j :| i + 1 < j < |t| - 1 && t[j] == '.';
      AddressRunSplit(t, i + 1, j, |t|);
      assert t[i] == '@' && t[j] == '.' && AddressRun(t, 0, i);
    }
    if EmailPattern(t) {
      var i, j :| 0 < i && i + 1 < j && j + 1 < |t| && t[i] == '@' && t[j] == '.' &&
                  AddressRun(t, 0, i) && AddressRun(t, i + 1, j) && AddressRun(t, j + 1, |t|);
      assert IsAddressChar('.');
      AddressRunSplit(t, i + 1, j, |t|);
      assert FindChar(t, '@', 0) == Some(i);
    }
  }

  /** The six fields of the form, by element id. */
  datatype Field = Nome | Salone | Citta | Telefono | Email | Messaggio

  /** The kinds of rule the table uses, each applied to the trimmed value. */
  datatype Check = MinLength(n: nat) | PhoneFormat | EmailFormat

  /** Whether the value `v`, once trimmed, passes the check. */
  predicate Passes(c: Check, v: string) {
    var t := Trim(v);
    match c
    case MinLength(n) => Utf16Length(t) >= n
    case PhoneFormat => IsPhone(t)
    case EmailFormat => IsEmail(t)
  }

  /** One entry of the validator's table: an element id and the rule its value must meet. */
  datatype FieldSpec = FieldSpec(id: Field, rule: Check)

  /** The table, in the order the fields are checked. */
  const FormFields: seq<FieldSpec> := [
    FieldSpec(Nome, MinLength(2)),
    FieldSpec(Salone, MinLength(2)),
    FieldSpec(Citta, MinLength(2)),
    FieldSpec(Telefono, PhoneFormat),
    FieldSpec(Email, EmailFormat),
    FieldSpec(Messaggio, MinLength(10))
  ]

  /** Where a field stands in the table. */
  function Position(f: Field): (p: nat)
    ensures p < |FormFields| && FormFields[p].id == f
  {
    match f
    case Nome => 0
    case Salone => 1
    case Citta => 2
    case Telefono => 3
    case Email => 4
    case Messaggio => 5
  }

  /** Every field appears in the table exactly once. */
  lemma PositionInTable(k: nat)
    requires k < |FormFields|
    ensures Position(FormFields[k].id) == k
  {
    if k == 0 {} else if k == 1 {} else if k == 2 {} else if k == 3 {} else if k == 4 {} else {}
  }

  /** The rule of a field, applied to the value as read (untrimmed). */
  predicate Rule(f: Field, v: string) {
    Passes(FormFields[Position(f)].rule, v)
  }

  /** What each rule asks of the trimmed value. */
  lemma RuleOfEachField(v: string)
    ensures var t := Trim(v);
            (Rule(Nome, v) <==> Utf16Length(t) >= 2) && (Rule(Salone, v) <==> Utf16Length(t) >= 2) &&
            (Rule(Citta, v) <==> Utf16Length(t) >= 2) && (Rule(Telefono, v) <==> IsPhone(t)) &&
            (Rule(Email, v) <==> EmailPattern(t)) && (Rule(Messaggio, v) <==> Utf16Length(t) >= 10)
  {
    EmailDecision(Trim(v));
  }

  /** Every rule looks only at the trimmed value, and an empty value (a missing field reads
      as one) breaks every rule. */
  lemma RuleSeesTrimmed(f: Field, v: string)
    ensures Rule(f, v) == Rule(f, Trim(v))
    ensures !Rule(f, "")
  {
    TrimIdempotent(v);
    assert Trim("") == "";
    RuleOfEachField(v);
    RuleOfEachField(Trim(v));
    RuleOfEachField("");
  }

  /** The outcome of a validation: whether the form is valid, the first invalid field that
      exists on the page, and the fields whose wrapper is marked `is-invalid`. */
  datatype Validation = Validation(valid: bool, firstInvalid: Option<Field>, flagged: set<Field>)

  /** The value read for a field: `input?.value ?? ''`. */
  function ValueOf(inputs: map<Field, string>, f: Field): string {
    if f in inputs then inputs[f] else ""
  }

  /** Whether the value read for `f` meets the rule of `f`. */
  predicate FieldOk(inputs: map<Field, string>, f: Field) {
    Rule(f, ValueOf(inputs, f))
  }

  // The outcome after the first `k` rows of the table, row by row.

  /** Whether every one of the first `k` rows passes. */
  ghost predicate AllOkUpTo(inputs: map<Field, string>, k: nat)
    requires k <= |FormFields|
  {
    k == 0 || (AllOkUpTo(inputs, k - 1) && FieldOk(inputs, FormFields[k - 1].id))
  }

  /** The fields among the first `k` rows whose wrapper is marked `is-invalid`. */
  ghost function FlaggedUpTo(inputs: map<Field, string>, k: nat): set<Field>
    requires k <= |FormFields|
  {
    if k == 0 then {}
    else
      var f := FormFields[k - 1].id;
      FlaggedUpTo(inputs, k - 1) + if f in inputs && !FieldOk(inputs, f) then {f} else {}
  }

  /** The first failing field among the first `k` rows whose input exists. */
  ghost function FirstBadUpTo(inputs: map<Field, string>, k: nat): Option<Field>
    requires k <= |FormFields|
  {
    if k == 0 then None
    else
      var p := FirstBadUpTo(inputs, k - 1);
      var f := FormFields[k - 1].id;
      if p.None? && f in inputs && !FieldOk(inputs, f) then Some(f) else p
  }

  lemma {:induction false} AllOkUpToMeaning(inputs: map<Field, string>, k: nat)
    requires k <= |FormFields|
    ensures AllOkUpTo(inputs, k) <==> forall f :: Position(f) < k ==> FieldOk(inputs, f)
  {
    if k > 0 {
      AllOkUpToMeaning(inputs, k - 1);
      PositionInTable(k - 1);
    }
  }

  lemma {:induction false} FlaggedUpToMeaning(inputs: map<Field, string>, k: nat)
    requires k <= |FormFields|
    ensures forall f :: f in FlaggedUpTo(inputs, k) <==> Position(f) < k && f in inputs && !FieldOk(inputs, f)
  {
    if k > 0 {
      FlaggedUpToMeaning(inputs, k - 1);
      PositionInTable(k - 1);
    }
  }

  lemma {:induction false} FirstBadUpToMeaning(inputs: map<Field, string>, k: nat)
    requires k <= |FormFields|
    ensures var r := FirstBadUpTo(inputs, k);
            (r.None? ==> forall f :: f in inputs && Position(f) < k ==> FieldOk(inputs, f)) &&
            (r.Some? ==> Position(r.value) < k && r.value in inputs && !FieldOk(inputs, r.value) &&
                         forall g :: g in inputs && Position(g) < Position(r.value) ==> FieldOk(inputs, g))
  {
    if k > 0 {
      FirstBadUpToMeaning(inputs, k - 1);
      PositionInTable(k - 1);
    }
  }

  /** The row about to be checked has not been flagged yet. */
  lemma NotYetFlagged(inputs: map<Field, string>, k: nat)
    requires k < |FormFields|
    ensures FormFields[k].id !in FlaggedUpTo(inputs, k)
  {
    FlaggedUpToMeaning(inputs, k);
    PositionInTable(k);
  }

  /** What the pass over the whole table means, field by field. */
  lemma OutcomeMeaning(inputs: map<Field, string>)
    ensures var valid, first, flagged := AllOkUpTo(inputs, |FormFields|), FirstBadUpTo(inputs, |FormFields|),
                                         FlaggedUpTo(inputs, |FormFields|);
            (valid <==> forall f: Field :: FieldOk(inputs, f)) &&
            (forall f :: f in flagged <==> f in inputs && !FieldOk(inputs, f)) &&
            (first.None? ==> forall f :: f in inputs ==> FieldOk(inputs, f)) &&
            (first.Some? ==> first.value in inputs && !FieldOk(inputs, first.value) &&
                             forall g :: g in inputs && Position(g) < Position(first.value) ==> FieldOk(inputs, g))
  {
    AllOkUpToMeaning(inputs, |FormFields|);
    FlaggedUpToMeaning(inputs, |FormFields|);
    FirstBadUpToMeaning(inputs, |FormFields|);
  }

  /** `validateForm`. `inputs` holds the value of each field present on the page. With no
      form the result is valid. Otherwise the form is valid exactly when every rule holds,
      the invalid fields present are flagged, and `firstInvalid` is the earliest of them. A
      missing field makes the form invalid but is never `firstInvalid`. */
  method ValidateForm(formPresent: bool, inputs: map<Field, string>) returns (res: Validation)
    ensures !formPresent ==> res == Validation(true, None, {})
    ensures formPresent ==> (res.valid <==> forall f: Field :: FieldOk(inputs, f))
    ensures formPresent ==> forall f :: f in res.flagged <==> f in inputs && !FieldOk(inputs, f)
    ensures formPresent && res.firstInvalid.None? ==> forall f :: f in inputs ==> FieldOk(inputs, f)
    ensures formPresent && res.firstInvalid.Some? ==>
              var f := res.firstInvalid.value;
              f in inputs && !FieldOk(inputs, f) &&
              forall g :: g in inputs && Position(g) < Position(f) ==> FieldOk(inputs, g)
  {
    if !formPresent {
      return Validation(true, None, {});
    }
    var valid := true;
    var firstInvalid: Option<Field> := None;
    var flagged: set<Field> := {};
    for k := 0 to |FormFields|
      invariant valid == AllOkUpTo(inputs, k)
      invariant flagged == FlaggedUpTo(inputs, k)
      invariant firstInvalid == FirstBadUpTo(inputs, k)
    {
      var id, rule := FormFields[k].id, FormFields[k].rule;
      PositionInTable(k);
      NotYetFlagged(inputs, k);
      var present := id in inputs;  // document.getElementById(id) found an element
      var value := if present then inputs[id] else "";
      var isValid := Passes(rule, value);
      assert isValid == FieldOk(inputs, id);
      if present {
        flagged := if isValid then flagged - {id} else flagged + {id};
      }
      if !isValid {
        valid := false;
        if firstInvalid.None? && present {
          firstInvalid := Some(id);
        }
      }
    }
    OutcomeMeaning(inputs);
    res := Validation(valid, firstInvalid, flagged);
  }
}
