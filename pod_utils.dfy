/**
 * Pod utilities of the leader/worker-set controller: predicates over a pod
 * snapshot (restart, deletion, leader role, readiness) and the injector that
 * gives every container the address of its group's leader.
 */
module PodUtils {
  import opened CoreV1
  import opened LeaderWorkerSet
  import Fmt

  // ---------------------------------------------------------------------
  // Restart detection
  // ---------------------------------------------------------------------

  /** Scans the statuses in order and stops at the first restarted container. */
  function AnyRestarted(statuses: seq<ContainerStatus>): (r: bool)
    ensures r <==> exists j :: 0 <= j < |statuses| && statuses[j].restartCount > 0
  {
    if |statuses| == 0 then false
    else if statuses[0].restartCount > 0 then true
    else AnyRestarted(statuses[1..])
  }

  /**
   * A pod that is running or pending has restarted when any init container
   * or container has been restarted; in any other phase it never has.
   */
  function ContainerRestarted(pod: Pod): (r: bool)
    ensures !(pod.status.phase == PodRunning || pod.status.phase == PodPending) ==> !r
    ensures (pod.status.phase == PodRunning || pod.status.phase == PodPending) ==>
      (r <==> ((exists j :: 0 <= j < |pod.status.initContainerStatuses| &&
                            pod.status.initContainerStatuses[j].restartCount > 0) ||
               (exists j :: 0 <= j < |pod.status.containerStatuses| &&
                            pod.status.containerStatuses[j].restartCount > 0)))
  {
    if pod.status.phase == PodRunning || pod.status.phase == PodPending then
      AnyRestarted(pod.status.initContainerStatuses) || AnyRestarted(pod.status.containerStatuses)
    else
      false
  }

  // ---------------------------------------------------------------------
  // Deletion and leader role
  // ---------------------------------------------------------------------

  /** A pod is being deleted once it carries a deletion timestamp, in any phase. */
  function PodDeleted(pod: Pod): (r: bool)
    ensures r <==> pod.meta.deletionTimestamp.Some?
  {
    pod.meta.deletionTimestamp != None
  }

  /** Indexing a Go map yields the zero value, "", for a missing key. */
  function LabelValue(labels: map<string, string>, key: string): (v: string)
    ensures key in labels ==> v == labels[key]
    ensures v != "" ==> key in labels
  {
    if key in labels then labels[key] else ""
  }

  /** The leader is the pod whose worker-index label is exactly "0". */
  function LeaderPod(pod: Pod): (r: bool)
    ensures r <==> WorkerIndexLabelKey in pod.meta.labels && pod.meta.labels[WorkerIndexLabelKey] == "0"
  {
    LabelValue(pod.meta.labels, WorkerIndexLabelKey) == "0"
  }

  // ---------------------------------------------------------------------
  // Condition search and readiness
  // ---------------------------------------------------------------------

  /** Some condition in the list has type `t`. */
  ghost predicate HasConditionType(conditions: seq<PodCondition>, t: PodConditionType)
  {
    exists i :: 0 <= i < |conditions| && conditions[i].conditionType == t
  }

  /** `i` is the position of the first condition of type `t`. */
  ghost predicate IsFirstMatch(conditions: seq<PodCondition>, t: PodConditionType, i: int)
  {
    && 0 <= i < |conditions|
    && conditions[i].conditionType == t
    && forall j :: 0 <= j < i ==> conditions[j].conditionType != t
  }

  /**
   * What a first-match search must return: -1 and nothing when no condition
   * has type `t`, otherwise the first such position and the condition there.
   */
  ghost predicate IsSearchResult(conditions: seq<PodCondition>, t: PodConditionType, i: int, c: Option<PodCondition>)
  {
    || (i == -1 && c == None && !HasConditionType(conditions, t))
    || (IsFirstMatch(conditions, t, i) && c == Some(conditions[i]))
  }

  /** There is only one first match. */
  lemma FirstMatchUnique(conditions: seq<PodCondition>, t: PodConditionType, i: int, k: int)
    requires IsFirstMatch(conditions, t, i) && IsFirstMatch(conditions, t, k)
    ensures i == k
  {
  }

  /** The specification of the search admits exactly one answer. */
  lemma SearchResultUnique(conditions: seq<PodCondition>, t: PodConditionType,
                           i: int, c: Option<PodCondition>, i': int, c': Option<PodCondition>)
    requires IsSearchResult(conditions, t, i, c) && IsSearchResult(conditions, t, i', c')
    ensures i == i' && c == c'
  {
    if i != -1 && i' != -1 {
      FirstMatchUnique(conditions, t, i, i');
    }
  }

  /** The loop of the search, resumed at position `from`. */
  function FindConditionFrom(conditions: seq<PodCondition>, t: PodConditionType, from: nat): (r: (int, Option<PodCondition>))
    requires from <= |conditions|
    ensures r.0 == -1 <==> forall j :: from <= j < |conditions| ==> conditions[j].conditionType != t
    ensures r.0 == -1 ==> r.1 == None
    ensures r.0 != -1 ==>
      && from <= r.0 < |conditions|
      && conditions[r.0].conditionType == t
      && r.1 == Some(conditions[r.0])
      && forall j :: from <= j < r.0 ==> conditions[j].conditionType != t
    decreases |conditions| - from
  {
    if from == |conditions| then (-1, None)
    else if conditions[from].conditionType == t then (from, Some(conditions[from]))
    else FindConditionFrom(conditions, t, from + 1)
  }

  /** First-match linear search of a condition list by type. */
  function GetPodConditionFromList(conditions: seq<PodCondition>, t: PodConditionType): (r: (int, Option<PodCondition>))
    ensures IsSearchResult(conditions, t, r.0, r.1)
  {
    FindConditionFrom(conditions, t, 0)
  }

  /** The same search over a pod status's conditions. */
  function GetPodCondition(status: PodStatus, t: PodConditionType): (r: (int, Option<PodCondition>))
    ensures IsSearchResult(status.conditions, t, r.0, r.1)
  {
    GetPodConditionFromList(status.conditions, t)
  }

  /** The first Ready condition of a status, if there is one. */
  function GetPodReadyCondition(status: PodStatus): (c: Option<PodCondition>)
    ensures c == None <==> !HasConditionType(status.conditions, ReadyConditionType)
    ensures c != None ==>
      exists i :: IsFirstMatch(status.conditions, ReadyConditionType, i) && c == Some(status.conditions[i])
  {
    GetPodCondition(status, ReadyConditionType).1
  }

  /** The first Ready condition exists and has status True. */
  function PodReadyConditionTrue(status: PodStatus): (r: bool)
    ensures r <==> exists i :: IsFirstMatch(status.conditions, ReadyConditionType, i) &&
                              status.conditions[i].status == ConditionTrue
  {
    var condition := GetPodReadyCondition(status);
    var r := condition != None && condition.value.status == ConditionTrue;
    assert r <== exists i :: IsFirstMatch(status.conditions, ReadyConditionType, i) &&
                             status.conditions[i].status == ConditionTrue by {
      if i :| IsFirstMatch(status.conditions, ReadyConditionType, i) && status.conditions[i].status == ConditionTrue {
        var k :| IsFirstMatch(status.conditions, ReadyConditionType, k) && condition == Some(status.conditions[k]);
        FirstMatchUnique(status.conditions, ReadyConditionType, i, k);
      }
    }
    r
  }

  /** The pod's first Ready condition is True. */
  function PodReady(pod: Pod): (r: bool)
    ensures r <==> exists i :: IsFirstMatch(pod.status.conditions, ReadyConditionType, i) &&
                              pod.status.conditions[i].status == ConditionTrue
  {
    PodReadyConditionTrue(pod.status)
  }

  /** The pod is running and its first Ready condition is True. */
  function PodRunningAndReady(pod: Pod): (r: bool)
    ensures r <==> pod.status.phase == PodRunning &&
                   exists i :: IsFirstMatch(pod.status.conditions, ReadyConditionType, i) &&
                               pod.status.conditions[i].status == ConditionTrue
  {
    pod.status.phase == PodRunning && PodReady(pod)
  }

  /** Without any Ready condition a pod is not ready, whatever its phase. */
  lemma NoReadyConditionNotReady(pod: Pod)
    requires !HasConditionType(pod.status.conditions, ReadyConditionType)
    ensures !PodRunningAndReady(pod)
  {
  }

  /**
   * Only the first Ready condition counts: when it is not True, a later
   * Ready condition with status True does not make the pod ready.
   */
  lemma FirstReadyDecides(pod: Pod, i: nat, k: nat)
    requires IsFirstMatch(pod.status.conditions, ReadyConditionType, i)
    requires pod.status.conditions[i].status != ConditionTrue
    requires i < k < |pod.status.conditions|
    requires pod.status.conditions[k] == PodCondition(ReadyConditionType, ConditionTrue)
    ensures !PodRunningAndReady(pod)
  {
  }

  // ---------------------------------------------------------------------
  // Leader address injection
  // ---------------------------------------------------------------------

  /** The environment defines a variable called `name`. */
  predicate DefinesEnv(env: seq<EnvVar>, name: string)
  {
    exists k :: 0 <= k < |env| && env[k].name == name
  }

  /** The environment after inserting `e` unless its name is already defined. */
  function EnvIfAbsent(env: seq<EnvVar>, e: EnvVar): (r: seq<EnvVar>)
    ensures DefinesEnv(r, e.name)
    ensures |env| <= |r| <= |env| + 1 && r[|r| - |env|..] == env
    ensures |r| == |env| + 1 ==> r[0] == e
  {
    assert ([e] + env)[0].name == e.name;
    if DefinesEnv(env, e.name) then env else [e] + env
  }

  /** The number of variables called `name`. */
  function CountEnv(env: seq<EnvVar>, name: string): nat
  {
    if |env| == 0 then 0
    else (if env[0].name == name then 1 else 0) + CountEnv(env[1..], name)
  }

  lemma {:induction false} CountEnvZero(env: seq<EnvVar>, name: string)
    ensures CountEnv(env, name) == 0 <==> !DefinesEnv(env, name)
  {
    if |env| > 0 {
      CountEnvZero(env[1..], name);
      if DefinesEnv(env[1..], name) {
        var k :| 0 <= k < |env[1..]| && env[1..][k].name == name;
        assert env[k + 1].name == name;
      }
      if env[0].name != name && DefinesEnv(env, name) {
        var k :| 0 <= k < |env| && env[k].name == name;
        assert env[1..][k - 1].name == name;
      }
    }
  }

  /**
   * Inserting if absent: an existing entry with the name wins whatever its
   * value; otherwise `e` goes in front of the old entries, which are kept in
   * order. Either way the name ends up defined.
   */
  lemma EnvIfAbsentCases(env: seq<EnvVar>, e: EnvVar)
    ensures DefinesEnv(env, e.name) ==> EnvIfAbsent(env, e) == env
    ensures !DefinesEnv(env, e.name) ==> EnvIfAbsent(env, e) == [e] + env
    ensures DefinesEnv(EnvIfAbsent(env, e), e.name)
  {
    if !DefinesEnv(env, e.name) {
      assert ([e] + env)[0].name == e.name;
    }
  }

  /** A second insertion of the same variable changes nothing. */
  lemma EnvIfAbsentIdempotent(env: seq<EnvVar>, e: EnvVar)
    ensures EnvIfAbsent(EnvIfAbsent(env, e), e) == EnvIfAbsent(env, e)
  {
    EnvIfAbsentCases(env, e);
  }

  /**
   * Insertion never duplicates the name: a container that lacked the
   * variable has exactly one afterwards, and the count of every name is
   * otherwise unchanged.
   */
  lemma EnvIfAbsentCount(env: seq<EnvVar>, e: EnvVar, name: string)
    ensures CountEnv(EnvIfAbsent(env, e), name) ==
      if name == e.name && CountEnv(env, name) == 0 then 1 else CountEnv(env, name)
  {
    CountEnvZero(env, e.name);
    CountEnvZero(env, name);
    if !DefinesEnv(env, e.name) {
      assert ([e] + env)[1..] == env;
    }
  }

  /** A container with the variable inserted if absent. */
  function WithEnvVar(c: Container, e: EnvVar): Container
  {
    c.(env := EnvIfAbsent(c.env, e))
  }

  /** Every container of a list with the variable inserted if absent. */
  function InjectAll(cs: seq<Container>, e: EnvVar): (r: seq<Container>)
    ensures |r| == |cs|
    ensures forall i :: 0 <= i < |cs| ==> r[i].name == cs[i].name
  {
    seq(|cs|, i requires 0 <= i < |cs| => WithEnvVar(cs[i], e))
  }

  /**
   * Injection keeps the number and order of the containers and their names;
   * afterwards every container defines the variable; a container that had it
   * is untouched and one that lacked it gets `e` in front.
   */
  lemma InjectAllCases(cs: seq<Container>, e: EnvVar)
    ensures |InjectAll(cs, e)| == |cs|
    ensures forall i :: 0 <= i < |cs| ==> InjectAll(cs, e)[i].name == cs[i].name
    ensures forall i :: 0 <= i < |cs| ==> DefinesEnv(InjectAll(cs, e)[i].env, e.name)
    ensures forall i :: 0 <= i < |cs| && DefinesEnv(cs[i].env, e.name) ==> InjectAll(cs, e)[i] == cs[i]
    ensures forall i :: 0 <= i < |cs| && !DefinesEnv(cs[i].env, e.name) ==>
      InjectAll(cs, e)[i].env == [e] + cs[i].env
  {
    forall i | 0 <= i < |cs| ensures DefinesEnv(InjectAll(cs, e)[i].env, e.name) {
      EnvIfAbsentCases(cs[i].env, e);
    }
  }

  /** Injecting twice is injecting once. */
  lemma InjectAllIdempotent(cs: seq<Container>, e: EnvVar)
    ensures InjectAll(InjectAll(cs, e), e) == InjectAll(cs, e)
  {
    forall i | 0 <= i < |cs| ensures InjectAll(InjectAll(cs, e), e)[i] == InjectAll(cs, e)[i] {
      EnvIfAbsentIdempotent(cs[i].env, e);
    }
  }

  /** The leader address "<name>-<index>.<name>.<namespace>" built by fmt.Sprintf. */
  function LeaderAddress(lwsName: string, groupIndex: string, namespace: string): (a: string)
    ensures a == lwsName + "-" + groupIndex + "." + lwsName + "." + namespace
  {
    assert "%s-%s.%s.%s" == ['%', 's', '-', '%', 's', '.', '%', 's', '.', '%', 's'];
    Fmt.SprintfFourArgs('-', '.', '.', lwsName, groupIndex, lwsName, namespace);
    Fmt.Sprintf("%s-%s.%s.%s", [lwsName, groupIndex, lwsName, namespace])
  }

  /** Set "infer", group 2, namespace "default" give "infer-2.infer.default". */
  lemma LeaderAddressExample(lwsName: string, groupIndex: string, namespace: string)
    requires lwsName == "infer" && groupIndex == "2" && namespace == "default"
    ensures LeaderAddress(lwsName, groupIndex, namespace) == "infer-2.infer.default"
  {
    assert lwsName + "-" + groupIndex + "." + lwsName + "." + namespace == "infer-2.infer.default";
  }

  /** The variable AddLWSVariables injects for the given label values. */
  function LeaderAddressEnvVar(lwsName: string, groupIndex: string, namespace: string): (e: EnvVar)
    ensures e.name == LwsLeaderAddress
    ensures e.value == lwsName + "-" + groupIndex + "." + lwsName + "." + namespace
  {
    EnvVar(LwsLeaderAddress, LeaderAddress(lwsName, groupIndex, namespace))
  }

  /** Why the leader address could not be built: a label missing on the named pod. */
  datatype LabelError = NoSetNameLabel(podName: string) | NoGroupIndexLabel(podName: string)

  /**
   * Inserts `e` into the environment of container `i` unless a variable of
   * that name already exists. The pair (cs, i) stands for the pointer to
   * the container.
   */
  method AddEnvVarIfNotExists(cs: array<Container>, i: nat, e: EnvVar)
    requires i < cs.Length
    modifies cs
    ensures cs[..] == old(cs[..])[i := WithEnvVar(old(cs[i]), e)]
  {
    var env := cs[i].env;
    var k := 0;
    while k < |env|
      invariant 0 <= k <= |env|
      invariant forall j :: 0 <= j < k ==> env[j].name != e.name
    {
      if env[k].name == e.name {
        assert DefinesEnv(env, e.name);
        return;
      }
      k := k + 1;
    }
    cs[i] := cs[i].(env := [e] + env);
  }

  /**
   * Reads the set-name and group-index labels, in that order, failing
   * without touching any container when one is absent (an empty value counts
   * as present); otherwise inserts the leader address into every container
   * and then every init container that lacks it. The resulting lists are
   * fixed points: a second call changes nothing.
   */
  method AddLWSVariables(pod: Pod) returns (err: Option<LabelError>)
    modifies pod.spec.containers, pod.spec.initContainers
    ensures SetNameLabelKey !in pod.meta.labels ==>
      err == Some(NoSetNameLabel(pod.meta.name))
    ensures SetNameLabelKey in pod.meta.labels && GroupIndexLabelKey !in pod.meta.labels ==>
      err == Some(NoGroupIndexLabel(pod.meta.name))
    ensures err != None ==>
      unchanged(pod.spec.containers) && unchanged(pod.spec.initContainers)
    ensures SetNameLabelKey in pod.meta.labels && GroupIndexLabelKey in pod.meta.labels ==>
      var e := LeaderAddressEnvVar(pod.meta.labels[SetNameLabelKey], pod.meta.labels[GroupIndexLabelKey],
                                   pod.meta.namespace);
      && err == None
      && pod.spec.containers[..] == InjectAll(old(pod.spec.containers[..]), e)
      && pod.spec.initContainers[..] == InjectAll(old(pod.spec.initContainers[..]), e)
      && InjectAll(pod.spec.containers[..], e) == pod.spec.containers[..]
      && InjectAll(pod.spec.initContainers[..], e) == pod.spec.initContainers[..]
  {
    if SetNameLabelKey !in pod.meta.labels {
      return Some(NoSetNameLabel(pod.meta.name));
    }
    var lwsName := pod.meta.labels[SetNameLabelKey];
    if GroupIndexLabelKey !in pod.meta.labels {
      return Some(NoGroupIndexLabel(pod.meta.name));
    }
    var groupIndex := pod.meta.labels[GroupIndexLabelKey];
    var e := LeaderAddressEnvVar(lwsName, groupIndex, pod.meta.namespace);

    var cs, ics := pod.spec.containers, pod.spec.initContainers;
    ghost var cs0, ics0 := cs[..], ics[..];
    var i := 0;
    while i < cs.Length
      invariant 0 <= i <= cs.Length
      invariant forall j :: 0 <= j < i ==> cs[j] == WithEnvVar(cs0[j], e)
      invariant forall j :: i <= j < cs.Length ==> cs[j] == cs0[j]
      modifies cs
    {
      AddEnvVarIfNotExists(cs, i, e);
      i := i + 1;
    }
    assert cs[..] == InjectAll(cs0, e);

    ghost var ics1 := ics[..];
    i := 0;
    while i < ics.Length
      invariant 0 <= i <= ics.Length
      invariant forall j :: 0 <= j < i ==> ics[j] == WithEnvVar(ics1[j], e)
      invariant forall j :: i <= j < ics.Length ==> ics[j] == ics1[j]
      modifies ics
    {
      AddEnvVarIfNotExists(ics, i, e);
      i := i + 1;
    }
    assert ics[..] == InjectAll(ics1, e);

    InjectAllIdempotent(cs0, e);
    InjectAllIdempotent(ics0, e);
    err := None;
  }
}
