/** The guided troubleshooting wizard of the front end: four steps, the form
    the technician fills in along the way, the rule that decides whether the
    wizard may move on, the parsing of the comma-separated error codes and
    the grouping of the symptom catalogue by category. */
module Wizard {
  import opened Optional
  import opened Strings

  // ---------------------------------------------------------------------
  // Steps

  const FirstStep := 1
  const LastStep := 4

  /** `Math.min(step + 1, 4)`. */
  function NextStep(step: int): (r: int)
    ensures r <= LastStep && r <= step + 1 && (r == LastStep || r == step + 1)
  {
    if step + 1 < LastStep then step + 1 else LastStep
  }

  /** `Math.max(step - 1, 1)`. */
  function PrevStep(step: int): (r: int)
    ensures r >= FirstStep && r >= step - 1 && (r == FirstStep || r == step - 1)
  {
    if step - 1 > FirstStep then step - 1 else FirstStep
  }

  datatype Move = Forward | Back

  /** The step after a sequence of button presses. */
  function Run(step: int, moves: seq<Move>): int
    decreases |moves|
  {
    if moves == [] then step
    else Run(if moves[0] == Forward then NextStep(step) else PrevStep(step), moves[1..])
  }

  /** Starting anywhere in 1..4, in particular at step 1, any sequence of
      presses keeps the wizard within 1..4. */
  lemma {:induction false} RunStaysInRange(step: int, moves: seq<Move>)
    requires FirstStep <= step <= LastStep
    ensures FirstStep <= Run(step, moves) <= LastStep
    decreases |moves|
  {
    if moves != [] {
      RunStaysInRange(if moves[0] == Forward then NextStep(step) else PrevStep(step), moves[1..]);
    }
  }

  /** Inside the range, going back undoes going forward except at the last
      step, and going forward undoes going back except at the first. */
  lemma NextPrevInverse(step: int)
    requires FirstStep <= step <= LastStep
    ensures step < LastStep ==> PrevStep(NextStep(step)) == step
    ensures step > FirstStep ==> NextStep(PrevStep(step)) == step
    ensures NextStep(LastStep) == LastStep && PrevStep(FirstStep) == FirstStep
  {
  }

  // ---------------------------------------------------------------------
  // The form

  datatype FormData = FormData(
    equipmentType: string,
    location: string,
    symptoms: seq<string>,
    measurements: map<string, real>,
    errorCodes: seq<string>,
    additionalNotes: string)

  const InitialForm := FormData("", "", [], map[], [], "")

  /** What an input control reports: the field it edits and the new value. */
  datatype Change =
    | EquipmentType(text: string)
    | Location(text: string)
    | ErrorCodes(codes: seq<string>)
    | AdditionalNotes(text: string)

  /** `handleInputChange`: the named field takes the new value, every other
      field keeps its old one. */
  function HandleInputChange(form: FormData, change: Change): (r: FormData)
    ensures r.equipmentType == if change.EquipmentType? then change.text else form.equipmentType
    ensures r.location == if change.Location? then change.text else form.location
    ensures r.errorCodes == if change.ErrorCodes? then change.codes else form.errorCodes
    ensures r.additionalNotes == if change.AdditionalNotes? then change.text else form.additionalNotes
    ensures r.symptoms == form.symptoms && r.measurements == form.measurements
  {
    match change
    case EquipmentType(t) => form.(equipmentType := t)
    case Location(t) => form.(location := t)
    case ErrorCodes(c) => form.(errorCodes := c)
    case AdditionalNotes(t) => form.(additionalNotes := t)
  }

  /** The field a change edits. */
  function FieldOf(change: Change): nat
  {
    match change
    case EquipmentType(_) => 0
    case Location(_) => 1
    case ErrorCodes(_) => 2
    case AdditionalNotes(_) => 3
  }

  /** Of two changes to the same field the later wins; changes to different
      fields can be made in either order. */
  lemma ChangesCommute(form: FormData, a: Change, b: Change)
    ensures FieldOf(a) == FieldOf(b) ==>
      HandleInputChange(HandleInputChange(form, a), b) == HandleInputChange(form, b)
    ensures FieldOf(a) != FieldOf(b) ==>
      HandleInputChange(HandleInputChange(form, a), b) == HandleInputChange(HandleInputChange(form, b), a)
  {
  }

  /** The selected ids without any occurrence of `id`, in their order. */
  function Without<T(==)>(ids: seq<T>, id: T): (r: seq<T>)
    ensures |r| <= |ids|
  {
    if ids == [] then []
    else if ids[0] == id then Without(ids[1..], id)
    else [ids[0]] + Without(ids[1..], id)
  }

  /** Removing works piecewise, so the kept ids stay in their order. */
  lemma {:induction false} WithoutConcat<T>(a: seq<T>, b: seq<T>, id: T)
    ensures Without(a + b, id) == Without(a, id) + Without(b, id)
  {
    if a == [] {
      assert a + b == b;
    } else {
      var h := if a[0] == id then [] else [a[0]];
      var x, y := Without(a[1..], id), Without(b, id);
      assert Without(a + b, id) == h + Without(a[1..] + b, id) by {
        assert (a + b)[0] == a[0];
        assert (a + b)[1..] == a[1..] + b;
      }
      assert Without(a, id) == h + x;
      WithoutConcat(a[1..], b, id);
      assert h + (x + y) == (h + x) + y;
    }
  }

  lemma WithoutCons<T>(x: T, xs: seq<T>, id: T)
    ensures Without([x] + xs, id) == (if x == id then [] else [x]) + Without(xs, id)
  {
    assert ([x] + xs)[1..] == xs;
  }

  /** Every occurrence of `id` goes, every other id keeps its number of
      occurrences. */
  lemma {:induction false} WithoutCounts<T>(ids: seq<T>, id: T)
    ensures id !in Without(ids, id)
    ensures forall x :: x != id ==> multiset(Without(ids, id))[x] == multiset(ids)[x]
  {
    if ids != [] {
      WithoutCounts(ids[1..], id);
      assert ids == [ids[0]] + ids[1..];
    }
  }

  /** `handleSymptomToggle`: checking appends the id, even when it is already
      selected; unchecking removes every occurrence. Nothing else changes. */
  function HandleSymptomToggle(form: FormData, id: string, checked: bool): (r: FormData)
    ensures r == form.(symptoms := r.symptoms)
    ensures checked ==> r.symptoms == form.symptoms + [id]
    ensures !checked ==> r.symptoms == Without(form.symptoms, id)
  {
    form.(symptoms := if checked then form.symptoms + [id] else Without(form.symptoms, id))
  }

  /** Unchecking right after checking undoes the check when the id was not
      selected before. */
  lemma ToggleOnOff(form: FormData, id: string)
    requires id !in form.symptoms
    ensures HandleSymptomToggle(HandleSymptomToggle(form, id, true), id, false) == form
  {
    WithoutConcat(form.symptoms, [id], id);
    WithoutAbsent(form.symptoms, id);
  }

  lemma {:induction false} WithoutAbsent<T>(ids: seq<T>, id: T)
    requires id !in ids
    ensures Without(ids, id) == ids
  {
    if ids != [] {
      WithoutAbsent(ids[1..], id);
    }
  }

  /** `canProceedToNext`: the first step needs an equipment type and a
      location, the second at least one symptom, the last two always pass,
      any other step never does. */
  predicate CanProceed(step: int, form: FormData)
    ensures CanProceed(step, form) ==> FirstStep <= step <= LastStep
    ensures step == 3 || step == 4 ==> CanProceed(step, form)
  {
    match step
    case 1 => form.equipmentType != "" && form.location != ""
    case 2 => |form.symptoms| > 0
    case 3 => true
    case 4 => true
    case _ => false
  }

  /** Only the first two steps can hold the wizard back, and checking a
      symptom always unblocks the second. */
  lemma ProceedBlockers(step: int, form: FormData, id: string)
    ensures !CanProceed(step, form) && FirstStep <= step <= LastStep ==> step == 1 || step == 2
    ensures CanProceed(2, HandleSymptomToggle(form, id, true))
    ensures !CanProceed(2, HandleSymptomToggle(form.(symptoms := [id]), id, false))
  {
    assert Without([id], id) == Without([], id);
  }

  // ---------------------------------------------------------------------
  // Error codes

  /** `.map(s => s.trim()).filter(s => s)` over the pieces. */
  function CleanCodes(pieces: seq<string>): (codes: seq<string>)
    requires forall i :: 0 <= i < |pieces| ==> ',' !in pieces[i]
    ensures forall i :: 0 <= i < |codes| ==> Code(codes[i])
  {
    if pieces == [] then []
    else
      var t := Trim(pieces[0]);
      TrimIdempotent(pieces[0]);
      TrimKeepsCharacters(pieces[0]);
      if t == [] then CleanCodes(pieces[1..])
      else [t] + CleanCodes(pieces[1..])
  }

  /** A well-formed error code: not empty, no surrounding whitespace, no comma. */
  predicate Code(c: string)
  {
    c != [] && Trim(c) == c && ',' !in c
  }

  /** The error-code text field: split at commas, trim, drop empty pieces. */
  function ParseErrorCodes(raw: string): (codes: seq<string>)
    ensures forall i :: 0 <= i < |codes| ==> Code(codes[i])
  {
    CleanCodes(Split(raw, ','))
  }

  /** Text with no comma that is not blank gives exactly one code. */
  lemma SingleCode(raw: string)
    requires ',' !in raw && !AllSpace(raw)
    ensures ParseErrorCodes(raw) == [Trim(raw)]
  {
    SplitWithoutSeparator(raw, ',');
    TrimEmptyIffBlank(raw);
    CleanOne(raw);
  }

  /** A single piece gives its trim, unless that is empty. */
  lemma CleanOne(piece: string)
    requires ',' !in piece
    ensures CleanCodes([piece]) == if Trim(piece) == [] then [] else [Trim(piece)]
  {
    assert [piece][0] == piece && [piece][1..] == [];
  }

  /** `error_codes.join(', ')`, what the field shows. */
  function JoinCodes(codes: seq<string>): string
  {
    if codes == [] then "" else if |codes| == 1 then codes[0]
    else codes[0] + ", " + JoinCodes(codes[1..])
  }

  /** Parsing what the field shows gives back the codes. */
  lemma {:induction false} ParseJoinCodes(codes: seq<string>)
    requires forall i :: 0 <= i < |codes| ==> Code(codes[i])
    ensures ParseErrorCodes(JoinCodes(codes)) == codes
  {
    if codes == [] {
      assert Split("", ',') == [""];
    } else if |codes| == 1 {
      SplitWithoutSeparator(codes[0], ',');
      CleanOne(codes[0]);
      assert codes == [codes[0]];
    } else {
      var c := codes[0];
      var rest := JoinCodes(codes[1..]);
      assert Code(c);
      ParseJoinCodes(codes[1..]);
      assert JoinCodes(codes) == c + [','] + (" " + rest);
      SplitAtSeparator(c, ',', " " + rest);
      LeadingSpaceIgnored(rest);
      assert Split(JoinCodes(codes), ',')[1..] == Split(" " + rest, ',');
    }
  }

  /** A space in front of the text does not change the parsed codes. */
  lemma LeadingSpaceIgnored(s: string)
    ensures CleanCodes(Split(" " + s, ',')) == CleanCodes(Split(s, ','))
  {
    var ps := Split(s, ',');
    assert (" " + s)[1..] == s;
    var qs := Split(" " + s, ',');
    assert qs == [" " + ps[0]] + ps[1..];
    assert TrimStart(" " + ps[0]) == TrimStart(ps[0]);
    assert qs[1..] == ps[1..];
  }

  // ---------------------------------------------------------------------
  // The symptom catalogue grouped by category

  datatype Symptom = Symptom(id: string, name: string, category: string, description: string)

  /** The symptoms of one category, in catalogue order. */
  function OfCategory(symptoms: seq<Symptom>, category: string): seq<Symptom>
  {
    if symptoms == [] then []
    else
      var last := symptoms[|symptoms| - 1];
      OfCategory(symptoms[..|symptoms| - 1], category) + (if last.category == category then [last] else [])
  }

  /** A symptom is in exactly the group of its own category. */
  lemma {:induction false} OfCategoryMembers(symptoms: seq<Symptom>, category: string)
    ensures forall s :: s in OfCategory(symptoms, category) <==> s in symptoms && s.category == category
  {
    if symptoms != [] {
      var init := symptoms[..|symptoms| - 1];
      OfCategoryMembers(init, category);
      assert symptoms == init + [symptoms[|symptoms| - 1]];
    }
  }

  /** Grouping works piecewise, so each group keeps the catalogue order. */
  lemma {:induction false} OfCategoryConcat(a: seq<Symptom>, b: seq<Symptom>, category: string)
    ensures OfCategory(a + b, category) == OfCategory(a, category) + OfCategory(b, category)
    decreases |b|
  {
    if b == [] {
      assert a + b == a;
    } else {
      var init := b[..|b| - 1];
      OfCategoryConcat(a, init, category);
      assert (a + b)[..|a + b| - 1] == a + init;
      assert (a + b)[|a + b| - 1] == b[|b| - 1];
    }
  }

  /** The properties every plain object inherits from `Object.prototype`.
      Looked up on the `{}` accumulator, each gives a truthy value that is
      not an array. */
  const InheritedKeys: set<string> := {
    "constructor", "hasOwnProperty", "isPrototypeOf", "propertyIsEnumerable",
    "toLocaleString", "toString", "valueOf", "__proto__",
    "__defineGetter__", "__defineSetter__", "__lookupGetter__", "__lookupSetter__"}

  /** The `reduce` of `fetchSymptoms`: a key for each category that occurs,
      holding that category's symptoms in catalogue order. A category that
      names an inherited property is taken as already present, so `push`
      throws a `TypeError`; `None` is that failure, which the surrounding
      `catch` swallows without grouping anything. */
  method GroupByCategory(symptoms: seq<Symptom>) returns (groups: Option<map<string, seq<Symptom>>>)
    ensures groups.None? <==> exists s :: s in symptoms && s.category in InheritedKeys
    ensures groups.Some? ==> forall c :: c in groups.value <==> exists s :: s in symptoms && s.category == c
    ensures groups.Some? ==> forall c :: c in groups.value ==> groups.value[c] == OfCategory(symptoms, c)
  {
    var acc: map<string, seq<Symptom>> := map[];
    for i := 0 to |symptoms|
      invariant forall t :: t in symptoms[..i] ==> t.category !in InheritedKeys
      invariant forall c :: c in acc <==> HasCategory(symptoms[..i], c)
      invariant forall c :: c in acc ==> acc[c] == OfCategory(symptoms[..i], c)
    {
      var s := symptoms[i];
      if s.category in InheritedKeys {
        assert s in symptoms;
        return None;
      }
      if s.category !in acc {
        acc := acc[s.category := []];
        OfCategoryNone(symptoms[..i], s.category);
      }
      acc := acc[s.category := acc[s.category] + [s]];
      forall c ensures (c in acc <==> HasCategory(symptoms[..i + 1], c))
        && (c in acc ==> acc[c] == OfCategory(symptoms[..i + 1], c))
      {
        HasCategoryStep(symptoms, i, c);
        OfCategoryStep(symptoms, i, c);
      }
      assert symptoms[..i + 1] == symptoms[..i] + [s];
    }
    assert symptoms[..|symptoms|] == symptoms;
    groups := Some(acc);
  }

  predicate HasCategory(symptoms: seq<Symptom>, category: string)
  {
    exists s :: s in symptoms && s.category == category
  }

  lemma HasCategoryStep(symptoms: seq<Symptom>, i: nat, category: string)
    requires i < |symptoms|
    ensures HasCategory(symptoms[..i + 1], category)
      <==> HasCategory(symptoms[..i], category) || symptoms[i].category == category
  {
    assert symptoms[..i + 1] == symptoms[..i] + [symptoms[i]];
  }

  /** One more symptom of the catalogue extends its own group only. */
  lemma OfCategoryStep(symptoms: seq<Symptom>, i: nat, category: string)
    requires i < |symptoms|
    ensures OfCategory(symptoms[..i + 1], category) ==
      OfCategory(symptoms[..i], category) + (if symptoms[i].category == category then [symptoms[i]] else [])
  {
    assert symptoms[..i + 1][..i] == symptoms[..i];
  }

  lemma OfCategoryNone(symptoms: seq<Symptom>, category: string)
    requires forall s :: s in symptoms ==> s.category != category
    ensures OfCategory(symptoms, category) == []
  {
    OfCategoryMembers(symptoms, category);
    if OfCategory(symptoms, category) != [] {
      assert OfCategory(symptoms, category)[0] in OfCategory(symptoms, category);
    }
  }
}
