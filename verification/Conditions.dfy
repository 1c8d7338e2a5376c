/** Status conditions of a Cluster and the rules for changing them. */
module Conditions {
  import opened Wrappers

  const CREATING := "Creating"
  const UPGRADING := "Upgrading"

  const STATUS_TRUE := "True"
  const STATUS_FALSE := "False"
  const STATUS_UNKNOWN := "Unknown"

  datatype Condition = Condition(kind: string, status: string)

  datatype Error =
    | StatusUnknown(kind: string) | StatusNotAllowed(status: string) | Removed(kind: string) | CreationRestarted

  type Rule = (Option<Condition>, Option<Condition>) -> Option<Error>

  /** The first condition of the given kind. */
  function Get(conditions: seq<Condition>, kind: string): Option<Condition> {
    if |conditions| == 0 then None
    else if conditions[0].kind == kind then Some(conditions[0])
    else Get(conditions[1..], kind)
  }

  /** It is the first condition of the kind, and there is none exactly when no condition has the kind. */
  lemma {:induction false} GetExactly(conditions: seq<Condition>, kind: string)
    ensures Get(conditions, kind).None? <==> forall c | c in conditions :: c.kind != kind
    ensures Get(conditions, kind).Some? ==>
              exists i :: 0 <= i < |conditions| && conditions[i] == Get(conditions, kind).value
                          && conditions[i].kind == kind && forall k :: 0 <= k < i ==> conditions[k].kind != kind
  {
    if |conditions| > 0 {
      var rest := conditions[1..];
      assert conditions == [conditions[0]] + rest;
      GetExactly(rest, kind);
      if conditions[0].kind != kind && Get(rest, kind).Some? {
        var i :| 0 <= i < |rest| && rest[i] == Get(rest, kind).value
                 && rest[i].kind == kind && forall k :: 0 <= k < i ==> rest[k].kind != kind;
        assert forall k :: 1 <= k < i + 1 ==> conditions[k] == rest[k - 1];
        assert conditions[i + 1] == rest[i];
      }
    }
  }

  predicate HasStatus(condition: Option<Condition>, status: string) {
    condition.Some? && condition.value.status == status
  }

  predicate IsTrue(conditions: seq<Condition>, kind: string) {
    HasStatus(Get(conditions, kind), STATUS_TRUE)
  }

  predicate IsFalse(conditions: seq<Condition>, kind: string) {
    HasStatus(Get(conditions, kind), STATUS_FALSE)
  }

  function NewStatusUnknownIsNotAllowed(before: Option<Condition>, after: Option<Condition>): Option<Error> {
    if HasStatus(after, STATUS_UNKNOWN) then Some(StatusUnknown(after.value.kind)) else None
  }

  function NewStatusMustBeEitherTrueOrFalse(before: Option<Condition>, after: Option<Condition>): Option<Error> {
    if after.None? then None
    else if after.value.status != STATUS_TRUE && after.value.status != STATUS_FALSE
    then Some(StatusNotAllowed(after.value.status))
    else None
  }

  function RemovingConditionIsNotAllowed(before: Option<Condition>, after: Option<Condition>): Option<Error> {
    if before.Some? && after.None? then Some(Removed(before.value.kind)) else None
  }

  /** The error of the first rule that objects. */
  function FirstObjection(before: Option<Condition>, after: Option<Condition>, rules: seq<Rule>): Option<Error> {
    if |rules| == 0 then None
    else if rules[0](before, after).Some? then rules[0](before, after)
    else FirstObjection(before, after, rules[1..])
  }

  method ValidateAll(before: Option<Condition>, after: Option<Condition>, rules: seq<Rule>) returns (err: Option<Error>)
    ensures err == FirstObjection(before, after, rules)
    ensures err.None? <==> forall i :: 0 <= i < |rules| ==> rules[i](before, after).None?
  {
    for i := 0 to |rules|
      invariant FirstObjection(before, after, rules) == FirstObjection(before, after, rules[i..])
      invariant forall k :: 0 <= k < i ==> rules[k](before, after).None?
    {
      err := rules[i](before, after);
      assert rules[i..][0] == rules[i] && rules[i..][1..] == rules[i + 1..];
      if err.Some? {
        return err;
      }
    }
    return None;
  }

  const CHANGE_RULES: seq<Rule> :=
    [NewStatusUnknownIsNotAllowed, NewStatusMustBeEitherTrueOrFalse, RemovingConditionIsNotAllowed]

  /** A condition that is set to True or False, and stays set. */
  predicate IsProperChange(before: Option<Condition>, after: Option<Condition>) {
    && (before.Some? ==> after.Some?)
    && (after.Some? ==> after.value.status == "True" || after.value.status == "False")
  }

  lemma ChangeRulesExactly(before: Option<Condition>, after: Option<Condition>)
    ensures FirstObjection(before, after, CHANGE_RULES).None? <==> IsProperChange(before, after)
  {
    var r := CHANGE_RULES;
    assert r[1..][1..] == [RemovingConditionIsNotAllowed] && r[1..][1..][1..] == [];
    assert r[1..][0] == NewStatusMustBeEitherTrueOrFalse && r[1..][1..][0] == RemovingConditionIsNotAllowed;
    assert FirstObjection(before, after, r[1..][1..]) == RemovingConditionIsNotAllowed(before, after);
  }

  method ValidateCreatingCondition(before: seq<Condition>, after: seq<Condition>) returns (err: Option<Error>)
    ensures err == CreatingObjection(before, after)
  {
    var was, now := Get(before, CREATING), Get(after, CREATING);
    err := ValidateAll(was, now, CHANGE_RULES);
    if err.Some? {
      return;
    }
    var creationWasCompleted := was.Some? && was.value.status == STATUS_FALSE;
    var nowIsInCreation := now.Some? && now.value.status == STATUS_TRUE;
    if creationWasCompleted && nowIsInCreation {
      return Some(CreationRestarted);
    }
    return None;
  }

  method ValidateUpgradingCondition(before: seq<Condition>, after: seq<Condition>) returns (err: Option<Error>)
    ensures err == UpgradingObjection(before, after)
  {
    err := ValidateAll(Get(before, UPGRADING), Get(after, UPGRADING), CHANGE_RULES);
  }

  function CreatingObjection(before: seq<Condition>, after: seq<Condition>): Option<Error> {
    var objection := FirstObjection(Get(before, CREATING), Get(after, CREATING), CHANGE_RULES);
    if objection.Some? then objection
    else if IsFalse(before, CREATING) && IsTrue(after, CREATING) then Some(CreationRestarted)
    else None
  }

  function UpgradingObjection(before: seq<Condition>, after: seq<Condition>): Option<Error> {
    FirstObjection(Get(before, UPGRADING), Get(after, UPGRADING), CHANGE_RULES)
  }

  function ClusterObjection(before: seq<Condition>, after: seq<Condition>): Option<Error> {
    var creating := CreatingObjection(before, after);
    if creating.Some? then creating else UpgradingObjection(before, after)
  }

  method ValidateClusterConditions(before: seq<Condition>, after: seq<Condition>) returns (err: Option<Error>)
    ensures err == ClusterObjection(before, after)
  {
    err := ValidateCreatingCondition(before, after);
    if err.Some? {
      return;
    }
    err := ValidateUpgradingCondition(before, after);
  }

  /** What the condition checks accept, said directly. */
  lemma ConditionsExactly(before: seq<Condition>, after: seq<Condition>)
    ensures ClusterObjection(before, after).None? <==>
              && IsProperChange(Get(before, "Creating"), Get(after, "Creating"))
              && IsProperChange(Get(before, "Upgrading"), Get(after, "Upgrading"))
              && (IsFalse(before, "Creating") ==> IsFalse(after, "Creating"))
  {
    ChangeRulesExactly(Get(before, CREATING), Get(after, CREATING));
    ChangeRulesExactly(Get(before, UPGRADING), Get(after, UPGRADING));
  }

  /** What the two tests on a condition mean. */
  lemma StatusExactly(conditions: seq<Condition>, kind: string)
    ensures IsTrue(conditions, kind) <==> Get(conditions, kind).Some? && Get(conditions, kind).value.status == "True"
    ensures IsFalse(conditions, kind) <==> Get(conditions, kind).Some? && Get(conditions, kind).value.status == "False"
  {
  }

  /** What an objection to a change of one condition says. */
  predicate IsJustified(before: Option<Condition>, after: Option<Condition>, e: Error) {
    match e
    case StatusUnknown(kind) => after == Some(Condition(kind, "Unknown"))
    case StatusNotAllowed(status) =>
      after.Some? && after.value.status == status && status != "True" && status != "False" && status != "Unknown"
    case Removed(kind) => before.Some? && before.value.kind == kind && after.None?
    case CreationRestarted => false
  }

  lemma RuleIsJustified(before: Option<Condition>, after: Option<Condition>)
    ensures match FirstObjection(before, after, CHANGE_RULES)
      case None => true
      case Some(e) => IsJustified(before, after, e)
  {
    var r := CHANGE_RULES;
    assert r[1..][1..] == [RemovingConditionIsNotAllowed] && r[1..][1..][1..] == [];
    assert r[1..][0] == NewStatusMustBeEitherTrueOrFalse && r[1..][1..][0] == RemovingConditionIsNotAllowed;
    assert FirstObjection(before, after, r[1..][1..]) == RemovingConditionIsNotAllowed(before, after);
  }

  /** Every objection names what is wrong with the change of the Creating or the Upgrading condition. */
  lemma ObjectionIsJustified(before: seq<Condition>, after: seq<Condition>)
    ensures match ClusterObjection(before, after)
      case None => true
      case Some(CreationRestarted) => IsFalse(before, "Creating") && IsTrue(after, "Creating")
      case Some(e) => IsJustified(Get(before, "Creating"), Get(after, "Creating"), e)
                      || IsJustified(Get(before, "Upgrading"), Get(after, "Upgrading"), e)
  {
    RuleIsJustified(Get(before, CREATING), Get(after, CREATING));
    RuleIsJustified(Get(before, UPGRADING), Get(after, UPGRADING));
  }
}
