/** The rule-based diagnosis of the back end: from the equipment type and the
    symptom ids a technician selected, it derives the primary issue, a
    confidence score, likely causes, recommended actions, troubleshooting
    steps and safety warnings, and it can be overlaid by a language-model
    analysis that raises the confidence by ten points, capped at 95. */
module Diagnosis {
  import opened Optional
  import opened Strings

  // ---------------------------------------------------------------------
  // Reference tables

  /** An entry of a reference table: an id and its display name. */
  datatype Entry = Entry(id: string, name: string)

  const EquipmentTypes: seq<Entry> := [
    Entry("split_system", "Split System"),
    Entry("mini_split", "Mini Split"),
    Entry("package_unit", "Package Unit"),
    Entry("heat_pump", "Heat Pump")
  ]

  const Symptoms: seq<Entry> := [
    Entry("not_cooling", "Not Cooling"),
    Entry("insufficient_cooling", "Insufficient Cooling"),
    Entry("intermittent_cooling", "Intermittent Cooling"),
    Entry("unit_not_starting", "Unit Not Starting"),
    Entry("frequent_breaker_trips", "Frequent Breaker Trips"),
    Entry("display_errors", "Display Errors"),
    Entry("fan_not_spinning", "Fan Not Spinning"),
    Entry("unusual_noise", "Unusual Noise"),
    Entry("excessive_vibration", "Excessive Vibration"),
    Entry("ice_buildup", "Ice Buildup"),
    Entry("water_leak", "Water Leak"),
    Entry("burning_smell", "Burning Smell")
  ]

  /** The symptom ids the rules look for, by group. */
  const CoolingIds: seq<string> := ["not_cooling", "insufficient_cooling", "intermittent_cooling"]
  const ElectricalIds: seq<string> := ["unit_not_starting", "frequent_breaker_trips", "display_errors"]
  const MechanicalIds: seq<string> := ["fan_not_spinning", "unusual_noise", "excessive_vibration"]
  const VisualIds: seq<string> := ["ice_buildup", "water_leak", "burning_smell"]

  /** The name of the first entry with this id; an unknown id is its own name. */
  function Lookup(id: string, table: seq<Entry>): (name: string)
    ensures (forall e :: e in table ==> e.id != id) ==> name == id
  {
    if table == [] then id
    else if table[0].id == id then table[0].name
    else Lookup(id, table[1..])
  }

  /** The first entry with the id gives the name. */
  lemma {:induction false} LookupFirst(id: string, table: seq<Entry>, i: nat)
    requires i < |table| && table[i].id == id
    requires forall j :: 0 <= j < i ==> table[j].id != id
    ensures Lookup(id, table) == table[i].name
  {
    if i > 0 {
      LookupFirst(id, table[1..], i - 1);
    }
  }

  /** One name per symptom id, in the same order. */
  function SymptomNames(symptoms: seq<string>): (names: seq<string>)
    ensures |names| == |symptoms|
    ensures forall i :: 0 <= i < |symptoms| ==> names[i] == Lookup(symptoms[i], Symptoms)
  {
    if symptoms == [] then []
    else [Lookup(symptoms[0], Symptoms)] + SymptomNames(symptoms[1..])
  }

  /** The selected symptoms that belong to a group, in selection order. */
  function Issues(symptoms: seq<string>, group: seq<string>): (r: seq<string>)
    ensures |r| <= |symptoms|
    ensures forall i :: 0 <= i < |r| ==> r[i] in group
  {
    if symptoms == [] then []
    else if symptoms[0] in group then [symptoms[0]] + Issues(symptoms[1..], group)
    else Issues(symptoms[1..], group)
  }

  /** Exactly the selected symptoms of the group are kept. */
  lemma {:induction false} IssuesMembers(symptoms: seq<string>, group: seq<string>)
    ensures forall x :: x in Issues(symptoms, group) <==> x in symptoms && x in group
  {
    if symptoms != [] {
      IssuesMembers(symptoms[1..], group);
      assert symptoms == [symptoms[0]] + symptoms[1..];
    }
  }

  /** The comprehension filters piecewise, so the selection's order is kept. */
  lemma {:induction false} IssuesConcat(a: seq<string>, b: seq<string>, group: seq<string>)
    ensures Issues(a + b, group) == Issues(a, group) + Issues(b, group)
  {
    if a != [] {
      IssuesConcat(a[1..], b, group);
      assert (a + b)[1..] == a[1..] + b;
    } else {
      assert a + b == b;
    }
  }

  /** Every selected id of the group is kept as often as it was selected,
      and no other id is kept. */
  lemma {:induction false} IssuesCounts(symptoms: seq<string>, group: seq<string>)
    ensures forall x ::
      multiset(Issues(symptoms, group))[x] == if x in group then multiset(symptoms)[x] else 0
  {
    if symptoms != [] {
      IssuesCounts(symptoms[1..], group);
      assert symptoms == [symptoms[0]] + symptoms[1..];
    }
  }

  /** Some selected symptom belongs to the group. */
  predicate Has(symptoms: seq<string>, group: seq<string>)
  {
    exists x :: x in symptoms && x in group
  }

  /** The group's list is non-empty exactly when a symptom of it is selected. */
  lemma IssuesNonEmpty(symptoms: seq<string>, group: seq<string>)
    ensures Issues(symptoms, group) != [] <==> Has(symptoms, group)
  {
    IssuesMembers(symptoms, group);
    if Issues(symptoms, group) != [] {
      assert Issues(symptoms, group)[0] in Issues(symptoms, group);
    }
  }

  // ---------------------------------------------------------------------
  // Primary issue

  datatype Cause = Cause(cause: string, probability: nat)

  /** The primary issue, its confidence score and its likely causes. */
  datatype Finding = Finding(issue: string, confidence: nat, causes: seq<Cause>)

  const IceFormation := Finding("Refrigerant System with Ice Formation", 85, [
    Cause("Low refrigerant charge", 80),
    Cause("Dirty evaporator coil", 70),
    Cause("Restricted airflow", 60)])
  const CoolingFailure := Finding("Cooling System Failure", 82, [
    Cause("Compressor failure", 75),
    Cause("Refrigerant leak", 70),
    Cause("Faulty expansion valve", 55)])
  const InsufficientCooling := Finding("Insufficient Cooling Performance", 78, [
    Cause("Dirty air filter", 85),
    Cause("Low refrigerant", 65),
    Cause("Oversized/undersized system", 45)])
  const Overload := Finding("Electrical Overload Issue", 88, [
    Cause("Compressor hard start", 80),
    Cause("Short circuit in wiring", 75),
    Cause("Faulty contactor", 60)])
  const ElectricalMalfunction := Finding("Electrical System Malfunction", 80, [
    Cause("Thermostat failure", 70),
    Cause("Control board issue", 65),
    Cause("Wiring problem", 55)])
  const MechanicalFailure := Finding("Mechanical Component Failure", 83, [
    Cause("Fan motor failure", 80),
    Cause("Belt wear/breakage", 65),
    Cause("Bearing wear", 50)])
  const DiagnosticRequired := Finding("System Diagnostic Required", 70, [
    Cause("Multiple potential issues", 60),
    Cause("Maintenance required", 70)])

  /** The cascade of the rules: cooling before electrical before mechanical,
      with the more specific symptom checked first inside a group. */
  function PrimaryFinding(symptoms: seq<string>): (f: Finding)
    ensures f.confidence in {70, 78, 80, 82, 83, 85, 88}
  {
    if Issues(symptoms, CoolingIds) != [] then
      if "ice_buildup" in symptoms then IceFormation
      else if "not_cooling" in symptoms then CoolingFailure
      else InsufficientCooling
    else if Issues(symptoms, ElectricalIds) != [] then
      if "frequent_breaker_trips" in symptoms then Overload
      else ElectricalMalfunction
    else if Issues(symptoms, MechanicalIds) != [] then MechanicalFailure
    else DiagnosticRequired
  }

  /** A rule of the priority table: it applies when a symptom of `group` is
      selected and, if `also` is given, that symptom too. */
  datatype Rule = Rule(group: seq<string>, also: Option<string>, finding: Finding)

  const IceRule := Rule(CoolingIds, Some("ice_buildup"), IceFormation)
  const NotCoolingRule := Rule(CoolingIds, Some("not_cooling"), CoolingFailure)
  const CoolingRule := Rule(CoolingIds, None, InsufficientCooling)
  const BreakerRule := Rule(ElectricalIds, Some("frequent_breaker_trips"), Overload)
  const ElectricalRule := Rule(ElectricalIds, None, ElectricalMalfunction)
  const MechanicalRule := Rule(MechanicalIds, None, MechanicalFailure)

  /** The rules in the order of their priority. */
  const Rules: seq<Rule> :=
    [IceRule, NotCoolingRule, CoolingRule, BreakerRule, ElectricalRule, MechanicalRule]

  predicate Applies(rule: Rule, symptoms: seq<string>)
  {
    Has(symptoms, rule.group) && (rule.also.None? || rule.also.value in symptoms)
  }

  /** The finding of the first rule that applies, or the default. */
  function FirstApplicable(rules: seq<Rule>, symptoms: seq<string>): (f: Finding)
    ensures f == DiagnosticRequired || exists r :: r in rules && f == r.finding
  {
    if rules == [] then DiagnosticRequired
    else if Applies(rules[0], symptoms) then rules[0].finding
    else FirstApplicable(rules[1..], symptoms)
  }

  lemma FirstApplicableCons(rule: Rule, rest: seq<Rule>, symptoms: seq<string>)
    ensures FirstApplicable([rule] + rest, symptoms)
      == if Applies(rule, symptoms) then rule.finding else FirstApplicable(rest, symptoms)
  {
    assert ([rule] + rest)[1..] == rest;
  }

  /** The cascade agrees with reading the priority table top to bottom. */
  lemma PrimaryFindingByPriority(symptoms: seq<string>)
    ensures PrimaryFinding(symptoms) == FirstApplicable(Rules, symptoms)
  {
    IssuesNonEmpty(symptoms, CoolingIds);
    IssuesNonEmpty(symptoms, ElectricalIds);
    IssuesNonEmpty(symptoms, MechanicalIds);
    var t5 := [MechanicalRule] + [];
    var t4 := [ElectricalRule] + t5;
    var t3 := [BreakerRule] + t4;
    var t2 := [CoolingRule] + t3;
    var t1 := [NotCoolingRule] + t2;
    assert Rules == [IceRule] + t1;
    FirstApplicableCons(IceRule, t1, symptoms);
    FirstApplicableCons(NotCoolingRule, t2, symptoms);
    FirstApplicableCons(CoolingRule, t3, symptoms);
    FirstApplicableCons(BreakerRule, t4, symptoms);
    FirstApplicableCons(ElectricalRule, t5, symptoms);
    FirstApplicableCons(MechanicalRule, [], symptoms);
  }

  /** The default finding comes exactly when no cooling, electrical or
      mechanical symptom is selected: visual symptoms alone do not count. */
  lemma DefaultIffNoRuleGroup(symptoms: seq<string>)
    ensures PrimaryFinding(symptoms) == DiagnosticRequired <==>
      !Has(symptoms, CoolingIds) && !Has(symptoms, ElectricalIds) && !Has(symptoms, MechanicalIds)
  {
    IssuesNonEmpty(symptoms, CoolingIds);
    IssuesNonEmpty(symptoms, ElectricalIds);
    IssuesNonEmpty(symptoms, MechanicalIds);
  }

  /** Visual symptoms on their own lead to the default finding. */
  lemma VisualOnlyIsDefault(symptoms: seq<string>)
    requires forall x :: x in symptoms ==> x in VisualIds
    ensures PrimaryFinding(symptoms) == DiagnosticRequired
  {
    DefaultIffNoRuleGroup(symptoms);
  }

  // ---------------------------------------------------------------------
  // Recommended actions

  datatype Priority = High | Medium | Low
  datatype Action = Action(action: string, priority: Priority)

  const CoolingActions := [
    Action("Check refrigerant levels and pressures", High),
    Action("Inspect evaporator and condenser coils", High),
    Action("Verify proper airflow", Medium)]
  const ElectricalActions := [
    Action("Test electrical connections and voltage", High),
    Action("Inspect control components", High),
    Action("Check thermostat operation", Medium)]
  const MechanicalActions := [
    Action("Inspect fan motors and belts", High),
    Action("Check for loose components", Medium),
    Action("Lubricate moving parts if needed", Low)]
  const FallbackActions := [
    Action("Perform comprehensive system inspection", High),
    Action("Check all electrical connections", Medium),
    Action("Test system operation", Medium)]

  /** The first action group that applies, or the fallback group. */
  function FirstActionGroup(symptoms: seq<string>): (group: seq<Action>)
    ensures |group| == 3
  {
    if Has(symptoms, CoolingIds) then CoolingActions
    else if Has(symptoms, ElectricalIds) then ElectricalActions
    else if Has(symptoms, MechanicalIds) then MechanicalActions
    else FallbackActions
  }

  /** The groups of actions that apply, in the order cooling, electrical,
      mechanical, or the fallback group when none does. */
  method RecommendedActions(symptoms: seq<string>) returns (actions: seq<Action>)
    ensures actions ==
      if !Has(symptoms, CoolingIds) && !Has(symptoms, ElectricalIds) && !Has(symptoms, MechanicalIds)
      then FallbackActions
      else
        (if Has(symptoms, CoolingIds) then CoolingActions else [])
        + (if Has(symptoms, ElectricalIds) then ElectricalActions else [])
        + (if Has(symptoms, MechanicalIds) then MechanicalActions else [])
    ensures |actions| >= 3 && actions[..3] == FirstActionGroup(symptoms)
  {
    var cooling := Issues(symptoms, CoolingIds);
    var electrical := Issues(symptoms, ElectricalIds);
    var mechanical := Issues(symptoms, MechanicalIds);
    IssuesNonEmpty(symptoms, CoolingIds);
    IssuesNonEmpty(symptoms, ElectricalIds);
    IssuesNonEmpty(symptoms, MechanicalIds);
    actions := [];
    if cooling != [] {
      actions := actions + CoolingActions;
    }
    if electrical != [] {
      actions := actions + ElectricalActions;
    }
    if mechanical != [] {
      actions := actions + MechanicalActions;
    }
    if actions == [] {
      actions := FallbackActions;
    }
  }

  // ---------------------------------------------------------------------
  // Troubleshooting steps

  datatype Step = SafetyPreparation | RefrigerantCheck | ElectricalTest | ComponentInspection

  function Title(step: Step): string
  {
    match step
    case SafetyPreparation => "Safety Preparation"
    case RefrigerantCheck => "Refrigerant System Check"
    case ElectricalTest => "Electrical System Test"
    case ComponentInspection => "Component Inspection"
  }

  function Description(step: Step): string
  {
    match step
    case SafetyPreparation =>
      "Turn off power at the breaker and gather proper PPE including safety glasses, insulated gloves, and hard hat"
    case RefrigerantCheck =>
      "Connect manifold gauges and check suction and discharge pressures against manufacturer specifications"
    case ElectricalTest =>
      "Use multimeter to check voltage at contactor, compressor, and fan motor terminals"
    case ComponentInspection =>
      "Visually inspect all accessible components for signs of damage, wear, or overheating"
  }

  function SafetyNote(step: Step): string
  {
    match step
    case SafetyPreparation =>
      "Never work on energized equipment - always follow lockout/tagout procedures"
    case RefrigerantCheck =>
      "Wear safety glasses and ensure adequate ventilation when working with refrigerant"
    case ElectricalTest =>
      "Use insulated tools and proper PPE when testing electrical components"
    case ComponentInspection =>
      "Look for burn marks, unusual wear patterns, or damaged wiring"
  }

  function ExpectedResult(step: Step): string
  {
    match step
    case SafetyPreparation => "Safe working environment established"
    case RefrigerantCheck => "Pressures should match specifications for current ambient temperature"
    case ElectricalTest => "Voltage readings should match nameplate specifications"
    case ComponentInspection => "Identify any obvious physical problems or safety hazards"
  }

  /** No element occurs twice. */
  predicate Distinct<T(==)>(xs: seq<T>)
  {
    forall i, j :: 0 <= i < j < |xs| ==> xs[i] != xs[j]
  }

  /** `a` occurs before `b` in `xs`. */
  predicate Before<T(==)>(xs: seq<T>, a: T, b: T)
  {
    exists i, j :: 0 <= i < j < |xs| && xs[i] == a && xs[j] == b
  }

  /** A list that opens with `first` and closes with `last`, holds `a`
      exactly when `hasA` and `b` exactly when `hasB`, `a` before `b`,
      without repeats. Both the steps and the warnings are built this way. */
  predicate Framed<T(==)>(xs: seq<T>, first: T, a: T, b: T, last: T, hasA: bool, hasB: bool)
  {
    && 2 <= |xs| && xs[0] == first && xs[|xs| - 1] == last
    && (a in xs <==> hasA) && (b in xs <==> hasB)
    && (a in xs && b in xs ==> Before(xs, a, b))
    && Distinct(xs)
  }

  /** A list without repeats has as many elements as it has different ones. */
  lemma {:induction false} DistinctSize<T>(xs: seq<T>)
    requires Distinct(xs)
    ensures |set x | x in xs| == |xs|
  {
    if xs != [] {
      DistinctSize(xs[1..]);
      assert (set x | x in xs) == {xs[0]} + (set x | x in xs[1..]);
      assert xs[0] !in xs[1..];
    }
  }

  /** A list without repeats over four values has at most four elements. */
  lemma FramedLength<T>(xs: seq<T>, first: T, a: T, b: T, last: T)
    requires Distinct(xs)
    requires forall x :: x in xs ==> x == first || x == a || x == b || x == last
    ensures |xs| <= 4
  {
    DistinctSize(xs);
    var all := {first, a, b, last};
    assert (set x | x in xs) + (all - set x | x in xs) == all;
  }

  /** Over four different values, a framed list is fixed by `hasA` and
      `hasB`, and it has two to four elements. */
  lemma FramedShape<T>(xs: seq<T>, first: T, a: T, b: T, last: T, hasA: bool, hasB: bool)
    requires Framed(xs, first, a, b, last, hasA, hasB)
    requires first != a && first != b && first != last && a != b && a != last && b != last
    requires forall x :: x in xs ==> x == first || x == a || x == b || x == last
    ensures 2 <= |xs| <= 4
    ensures xs == [first] + (if hasA then [a] else []) + (if hasB then [b] else []) + [last]
  {
    FramedLength(xs, first, a, b, last);
    var n := |xs|;
    forall i | 0 < i < n - 1 ensures xs[i] == a || xs[i] == b {
      assert xs[i] in xs;
    }
    if n == 3 {
      assert xs[1] in xs;
    } else if n == 4 {
      assert xs[1] in xs && xs[2] in xs;
      var i, j :| 0 <= i < j < n && xs[i] == a && xs[j] == b;
    }
  }

  predicate StepsFit(symptoms: seq<string>, steps: seq<Step>)
  {
    Framed(steps, SafetyPreparation, RefrigerantCheck, ElectricalTest, ComponentInspection,
      Has(symptoms, CoolingIds), Has(symptoms, ElectricalIds))
  }

  /** The steps open with the safety preparation and close with the
      component inspection; the refrigerant check is there exactly for a
      cooling symptom, the electrical test exactly for an electrical one,
      in that order; so there are two to four steps. */
  lemma StepsShape(symptoms: seq<string>, steps: seq<Step>)
    requires StepsFit(symptoms, steps)
    ensures 2 <= |steps| <= 4
    ensures steps == [SafetyPreparation]
      + (if Has(symptoms, CoolingIds) then [RefrigerantCheck] else [])
      + (if Has(symptoms, ElectricalIds) then [ElectricalTest] else [])
      + [ComponentInspection]
  {
    forall x | x in steps
      ensures x == SafetyPreparation || x == RefrigerantCheck || x == ElectricalTest || x == ComponentInspection
    {
      match x
      case SafetyPreparation =>
      case RefrigerantCheck =>
      case ElectricalTest =>
      case ComponentInspection =>
    }
    FramedShape(steps, SafetyPreparation, RefrigerantCheck, ElectricalTest, ComponentInspection,
      Has(symptoms, CoolingIds), Has(symptoms, ElectricalIds));
  }

  method TroubleshootingSteps(symptoms: seq<string>) returns (steps: seq<Step>)
    ensures StepsFit(symptoms, steps)
  {
    IssuesNonEmpty(symptoms, CoolingIds);
    IssuesNonEmpty(symptoms, ElectricalIds);
    steps := [SafetyPreparation];
    if Issues(symptoms, CoolingIds) != [] {
      steps := steps + [RefrigerantCheck];
    }
    if Issues(symptoms, ElectricalIds) != [] {
      steps := steps + [ElectricalTest];
    }
    steps := steps + [ComponentInspection];
    if RefrigerantCheck in steps && ElectricalTest in steps {
      assert steps[1] == RefrigerantCheck && steps[2] == ElectricalTest;
    }
  }

  // ---------------------------------------------------------------------
  // Safety warnings

  datatype Warning = PowerOff | FireHazard | OverloadHazard | RefrigerantExposure

  datatype Level = Critical | HighLevel

  function WarningLevel(w: Warning): Level
  {
    match w
    case PowerOff => Critical
    case FireHazard => Critical
    case OverloadHazard => HighLevel
    case RefrigerantExposure => HighLevel
  }

  function WarningCategory(w: Warning): string
  {
    match w
    case PowerOff => "electrical_safety"
    case FireHazard => "fire_safety"
    case OverloadHazard => "electrical_safety"
    case RefrigerantExposure => "refrigerant_safety"
  }

  function Message(w: Warning): string
  {
    match w
    case PowerOff => "Turn off power at the breaker before performing any electrical work"
    case FireHazard => "Burning smell detected - shut down system immediately and investigate source"
    case OverloadHazard =>
      "Electrical overload condition present - do not reset breaker without identifying cause"
    case RefrigerantExposure =>
      "Ensure adequate ventilation and wear eye protection when working with refrigerant"
  }

  function Compliance(w: Warning): string
  {
    match w
    case PowerOff => "NFPA 70E"
    case FireHazard => "NFPA 70"
    case OverloadHazard => "NFPA 70E"
    case RefrigerantExposure => "EPA 608"
  }

  predicate WarningsFit(symptoms: seq<string>, warnings: seq<Warning>)
  {
    Framed(warnings, PowerOff, FireHazard, OverloadHazard, RefrigerantExposure,
      "burning_smell" in symptoms, "frequent_breaker_trips" in symptoms)
  }

  method SafetyWarnings(symptoms: seq<string>) returns (warnings: seq<Warning>)
    ensures WarningsFit(symptoms, warnings)
  {
    warnings := [PowerOff];
    if "burning_smell" in symptoms {
      warnings := warnings + [FireHazard];
    }
    if "frequent_breaker_trips" in symptoms {
      warnings := warnings + [OverloadHazard];
    }
    warnings := warnings + [RefrigerantExposure];
    if FireHazard in warnings && OverloadHazard in warnings {
      assert warnings[1] == FireHazard && warnings[2] == OverloadHazard;
    }
  }

  /** The warnings open with the critical NFPA 70E power warning and close
      with the EPA 608 refrigerant warning; the fire warning is there exactly
      for a burning smell, the overload warning exactly for breaker trips,
      fire first; so there are two to four warnings. */
  lemma WarningsShape(symptoms: seq<string>, warnings: seq<Warning>)
    requires WarningsFit(symptoms, warnings)
    ensures 2 <= |warnings| <= 4
    ensures warnings == [PowerOff]
      + (if "burning_smell" in symptoms then [FireHazard] else [])
      + (if "frequent_breaker_trips" in symptoms then [OverloadHazard] else [])
      + [RefrigerantExposure]
    ensures WarningLevel(warnings[0]) == Critical && Compliance(warnings[0]) == "NFPA 70E"
    ensures Compliance(warnings[|warnings| - 1]) == "EPA 608"
  {
    forall x | x in warnings
      ensures x == PowerOff || x == FireHazard || x == OverloadHazard || x == RefrigerantExposure
    {
      match x
      case PowerOff =>
      case FireHazard =>
      case OverloadHazard =>
      case RefrigerantExposure =>
    }
    FramedShape(warnings, PowerOff, FireHazard, OverloadHazard, RefrigerantExposure,
      "burning_smell" in symptoms, "frequent_breaker_trips" in symptoms);
  }

  // ---------------------------------------------------------------------
  // The diagnosis

  /** Whether the record is the rule-based one or the language-model overlay. */
  datatype Kind = RuleBased | Comprehensive

  datatype Diagnosis = Diagnosis(
    primaryIssue: string,
    summary: string,
    confidence: int,
    causes: seq<Cause>,
    actions: seq<Action>,
    steps: seq<Step>,
    warnings: seq<Warning>,
    kind: Kind)

  /** The summary sentence up to the number of symptoms. */
  function SummaryHead(equipment: string, issue: string): (head: string)
    ensures |head| >= 2 && head[|head| - 2..] == ". "
  {
    "Based on the " + equipment + " symptoms and diagnostic information, the system appears to have "
      + Lower(issue) + ". "
  }

  const SummaryTail := " symptoms were identified requiring immediate attention."

  /** The summary sentence, with the issue in lower case and the number of
      symptoms in decimal. */
  function Summary(equipment: string, issue: string, count: nat): string
  {
    SummaryHead(equipment, issue) + Decimal(count) + SummaryTail
  }

  /** The digits between the head and the tail of the summary read back as
      the number of symptoms. */
  lemma SummaryReportsCount(equipment: string, issue: string, count: nat)
    ensures var s := Summary(equipment, issue, count);
      var h := |SummaryHead(equipment, issue)|;
      h <= |s| - |SummaryTail| && s[|s| - |SummaryTail|..] == SummaryTail
      && (forall i :: h <= i < |s| - |SummaryTail| ==> IsDigit(s[i]))
      && DecimalValue(s[h..|s| - |SummaryTail|]) == count
  {
    var s := Summary(equipment, issue, count);
    var h := |SummaryHead(equipment, issue)|;
    assert s[h..|s| - |SummaryTail|] == Decimal(count);
    DecimalRoundTrip(count);
  }

  /** The rule-based diagnosis of the selected symptoms. */
  method GetDiagnosis(equipmentType: string, symptoms: seq<string>) returns (d: Diagnosis)
    ensures d.primaryIssue == PrimaryFinding(symptoms).issue
    ensures d.confidence == PrimaryFinding(symptoms).confidence
    ensures d.causes == PrimaryFinding(symptoms).causes
    ensures d.summary == Summary(Lookup(equipmentType, EquipmentTypes), d.primaryIssue, |symptoms|)
    ensures d.actions == FirstActionGroup(symptoms) && |d.actions| == 3
    ensures StepsFit(symptoms, d.steps)
    ensures WarningsFit(symptoms, d.warnings)
    ensures d.kind == RuleBased
  {
    var equipmentName := Lookup(equipmentType, EquipmentTypes);
    var symptomNames := SymptomNames(symptoms);
    var finding := PrimaryFinding(symptoms);
    var actions := RecommendedActions(symptoms);
    var steps := TroubleshootingSteps(symptoms);
    var warnings := SafetyWarnings(symptoms);
    d := Diagnosis(finding.issue, Summary(equipmentName, finding.issue, |symptomNames|),
      finding.confidence, finding.causes, actions[..3], steps, warnings, RuleBased);
  }

  /** `min(95, confidence + 10)`. */
  function Raised(confidence: int): (c: int)
    ensures c <= 95 && c <= confidence + 10
    ensures c == 95 || c == confidence + 10
  {
    if confidence + 10 < 95 then confidence + 10 else 95
  }

  /** The language-model overlay: a new issue title and the model's text,
      stripped by `str.strip()`, as summary, the raised confidence,
      everything else carried over. */
  function Enhance(d: Diagnosis, response: string): (r: Diagnosis)
    ensures r.primaryIssue == "ChatGPT-4 Professional Analysis"
    ensures r.summary == PyStrip(response) && r.kind == Comprehensive
    ensures r.confidence == Raised(d.confidence)
    ensures r.causes == d.causes && r.actions == d.actions
    ensures r.steps == d.steps && r.warnings == d.warnings
  {
    Diagnosis("ChatGPT-4 Professional Analysis", PyStrip(response), Raised(d.confidence),
      d.causes, d.actions, d.steps, d.warnings, Comprehensive)
  }

  /** On a rule score the overlay adds ten points, except that 88 is capped
      at 95; it never lowers a score of 95 or less. */
  lemma EnhancedConfidence(d: Diagnosis, response: string)
    requires d.confidence in {70, 78, 80, 82, 83, 85, 88}
    ensures Enhance(d, response).confidence in {80, 88, 90, 92, 93, 95}
    ensures Enhance(d, response).confidence == if d.confidence == 88 then 95 else d.confidence + 10
  {
  }

  /** The quick report passes no symptoms and an unknown equipment type, so
      it always gets the default finding and the fallback actions. */
  lemma QuickSubmitIsDefault()
    ensures PrimaryFinding([]) == DiagnosticRequired
    ensures FirstActionGroup([]) == FallbackActions
    ensures SymptomNames([]) == []
    ensures Lookup("unknown", EquipmentTypes) == "unknown"
  {
    assert Issues([], CoolingIds) == [];
  }
}
