# Pod utilities of the leader/worker-set controller, in Dafny

This project models the pod utilities that the leader/worker-set (LWS)
controller uses on every reconciliation pass. It proves properties of that
model. There are two parts.

* **Pod state predicates** over a pod snapshot:
  * restart detection (`ContainerRestarted`);
  * deletion detection (`PodDeleted`);
  * leader detection from the worker-index label (`LeaderPod`);
  * readiness (`PodRunningAndReady`), built on a first-match linear search
    of the condition list (`GetPodConditionFromList` and the functions
    layered above it).
* **Leader address injector** (`AddLWSVariables`). It reads the set-name and
  group-index labels. It builds the address
  `<set name>-<group index>.<set name>.<namespace>` with `fmt.Sprintf`. It
  then inserts an environment variable holding that address into every
  container and every init container that does not define one yet
  (`AddEnvVarIfNotExists`).

Files:

* `core_v1.dfy` (module `CoreV1`): the pod fields that are read or written.
  The phase is an open string type in Go; phases other than the five named
  ones, including the empty phase, are `PodOther`.
  Each container list of the spec is an `array<Container>`, because the
  source updates slice elements in place through `&pod.Spec.Containers[i]`.
  A pointer to one container is modelled as the pair (array, index).
* `leaderworkerset.dfy` (module `LeaderWorkerSet`): the three label keys and
  the variable name. They are constants with no stated value, so every
  proof holds whatever strings they are. The proofs do not even need them
  to be distinct.
* `fmt.dfy` (module `Fmt`): `Sprintf` restricted to the `%s` verb.
* `pod_utils.dfy` (module `PodUtils`): the operations and their properties.

The readiness search is specified by `IsSearchResult`. It returns -1 and
nothing when no condition has the type. Otherwise it returns the first
position with that type and the condition found there.
`SearchResultUnique` shows that this specification allows only one answer.

Injection is specified through `EnvIfAbsent` (one environment) and
`InjectAll` (a list of containers). The lemmas about them prove that
injection is idempotent and never duplicates the variable, and that
containers which already had the variable are left alone.
`AddLWSVariables` ties the new arrays to `InjectAll` of the old ones. It
also promises that the new arrays are fixed points of `InjectAll`, so a
second call changes nothing. The method does not require the two container
arrays to be distinct objects. If they alias, the second loop meets
containers that already hold the variable, and idempotence keeps both
postconditions true.

Two behaviours of the code are easy to miss:

* Readiness uses only the first condition of type Ready
  (pkg/utils/pod/pod_utils.go:86-89). A later Ready=True entry does not
  help when an earlier Ready entry is not True (`FirstReadyDecides`).
* Environment names are not forced to be unique inside a container
  (pkg/utils/pod/pod_utils.go:94-101).
  Injection never adds a second entry for the leader-address name
  (`EnvIfAbsentCount`). A container that already held duplicates keeps
  them, so "exactly one" holds only for containers that held none or one
  before.

## Model

| member | source | states |
|---|---|---|
| PodUtils.AnyRestarted | pkg/utils/pod/pod_utils.go:30-41 | the in-order scan with early return is true exactly when some status in the list has a restart count above 0 |
| PodUtils.ContainerRestarted | pkg/utils/pod/pod_utils.go:28-44 | false in every phase other than Running or Pending, whatever the counts; in Running or Pending, true exactly when some init-container or container status has a restart count above 0 |
| PodUtils.PodDeleted | pkg/utils/pod/pod_utils.go:47-49 | true exactly when a deletion timestamp is present, whatever the phase |
| PodUtils.LabelValue | pkg/utils/pod/pod_utils.go:53 | Go's map index: the stored value for a present key; a non-empty result only for a present key, so a missing key reads as "" |
| PodUtils.LeaderPod | pkg/utils/pod/pod_utils.go:52-54 | true exactly when the worker-index label is present with value "0"; a missing label reads as "" (Go map zero value) and gives false |
| PodUtils.FindConditionFrom | pkg/utils/pod/pod_utils.go:86-91 | the loop resumed at a position: -1 and nothing exactly when no later condition has the type, else the first later position with the type and the condition there |
| PodUtils.GetPodConditionFromList | pkg/utils/pod/pod_utils.go:82-92 | -1 and nothing exactly when no condition has the type; otherwise the smallest index with that type, every earlier index having another type, paired with that condition |
| PodUtils.SearchResultUnique | pkg/utils/pod/pod_utils.go:82-92 | the first-match specification determines the index and the condition uniquely |
| PodUtils.FirstMatchUnique | pkg/utils/pod/pod_utils.go:86-89 | two positions that are both the first of a type are equal |
| PodUtils.GetPodCondition | pkg/utils/pod/pod_utils.go:75-80 | the same first-match result over the status's condition list |
| PodUtils.GetPodReadyCondition | pkg/utils/pod/pod_utils.go:70-73 | nothing exactly when no Ready condition exists; otherwise the first Ready condition |
| PodUtils.PodReadyConditionTrue | pkg/utils/pod/pod_utils.go:65-68 | true exactly when a first Ready condition exists and its status is True |
| PodUtils.PodReady | pkg/utils/pod/pod_utils.go:61-63 | true exactly when the pod's first Ready condition has status True |
| PodUtils.PodRunningAndReady | pkg/utils/pod/pod_utils.go:57-59 | true exactly when the phase is Running and the first Ready condition has status True |
| PodUtils.NoReadyConditionNotReady | pkg/utils/pod/pod_utils.go:57-92 | a pod without any Ready condition is not running-and-ready, with no error |
| PodUtils.FirstReadyDecides | pkg/utils/pod/pod_utils.go:57-92 | when the first Ready condition is not True, a later Ready=True condition does not make the pod ready |
| PodUtils.AddEnvVarIfNotExists | pkg/utils/pod/pod_utils.go:94-101 | only the addressed container changes; its environment becomes the old one if some entry already has the name (whatever its value), else the new variable in front of the old entries |
| PodUtils.EnvIfAbsent | pkg/utils/pod/pod_utils.go:94-101 | the environment after insert-if-absent: the name is defined, the old entries are kept in order at the end, and at most one entry, the new variable, is added in front |
| PodUtils.EnvIfAbsentCases | pkg/utils/pod/pod_utils.go:94-101 | an existing entry with the name leaves the environment unchanged; otherwise the variable is prepended to the old entries in order; afterwards the name is always defined |
| PodUtils.EnvIfAbsentIdempotent | pkg/utils/pod/pod_utils.go:94-101 | inserting the same variable a second time changes nothing |
| PodUtils.EnvIfAbsentCount | pkg/utils/pod/pod_utils.go:94-101 | insertion never duplicates the name: a container without it has exactly one afterwards, and every other name keeps its count |
| PodUtils.InjectAll | pkg/utils/pod/pod_utils.go:122-127 | each container of the list with insert-if-absent applied to its environment; keeps the number and names of the containers |
| PodUtils.InjectAllCases | pkg/utils/pod/pod_utils.go:122-127 | injection keeps the number, order and names of the containers; every container then defines the variable; those that had it are untouched and the others get it in front |
| PodUtils.InjectAllIdempotent | pkg/utils/pod/pod_utils.go:122-127 | injecting into a container list twice gives the same list as injecting once |
| PodUtils.LeaderAddress | pkg/utils/pod/pod_utils.go:119 | the address built by Sprintf("%s-%s.%s.%s", name, index, name, namespace) equals name + "-" + index + "." + name + "." + namespace |
| PodUtils.LeaderAddressEnvVar | pkg/utils/pod/pod_utils.go:117-120 | the injected variable is named by the leader-address constant and holds name + "-" + index + "." + name + "." + namespace |
| PodUtils.LeaderAddressExample | pkg/utils/pod/pod_utils.go:119 | set "infer", group index "2", namespace "default" give "infer-2.infer.default" |
| Fmt.Sprintf | pkg/utils/pod/pod_utils.go:119 | Go's Sprintf for the %s verb: each %s takes the next argument; a format with no '%' and no arguments comes out unchanged |
| Fmt.SprintfFourArgs | pkg/utils/pod/pod_utils.go:119 | with one argument per %s, the format "%s-%s.%s.%s" and its like join the four arguments with the three separators |
| PodUtils.AddLWSVariables | pkg/utils/pod/pod_utils.go:104-130 | a missing set-name label gives that error; with the set name present, a missing group-index label gives that error; either error leaves both container arrays unchanged; an empty value counts as present; with both labels, success and each list becomes the injection of the leader-address variable into the old list, and a second call would change nothing |

## Left out

- Kubernetes API types beyond the fields read or written. A pod is its name, namespace, labels, deletion timestamp, the two container lists and the status fields that are consulted.
- The deletion timestamp's time value. Only whether it is present matters, so it is an `Option<int>`.
- The message text of the two `fmt.Errorf` errors. `LabelError` records which label was missing and the pod's name.
- The nil checks on the status pointer and on the condition slice. A nil slice and an empty one are both the empty sequence, and the status passed by `getPodReadyCondition` is never nil.
- Fmt.Sprintf: only the `%s` verb is modelled. Go's diagnostics for missing or extra arguments, and all other verbs, are not. The one call site passes four arguments for four verbs.
- PodUtils.ContainerRestarted: the restart counter is an unbounded `int`, not Go's `int32`. It is only compared with 0, so the width does not matter.
- PodUtils.ContainerRestarted: its short-circuit order (init containers first) is not observable in a boolean result, so it is not stated.
- The concrete values of the label keys and of the variable name. They are defined in the leader/worker-set API package, which is not part of this model.
- The headless service that makes the address resolvable, and the controller that calls these functions. Both are external collaborators.
- An explicit leader/worker role type derived from the label. The code compares strings directly, and the model does the same.
