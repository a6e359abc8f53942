/** The handful of Kubernetes core/v1 pod fields that the pod utilities read or write. */
module CoreV1 {

  /** Stands for a Go pointer that may be nil. */
  datatype Option<+T> = None | Some(value: T)

  /**
   * The phases a pod's status reports. The phase is an open string type, so
   * any other value (such as the empty phase of a fresh status) is PodOther.
   */
  datatype PodPhase = PodPending | PodRunning | PodSucceeded | PodFailed | PodUnknown | PodOther(phase: string)

  /** The tri-state status of a pod condition. */
  datatype ConditionStatus = ConditionTrue | ConditionFalse | ConditionUnknown

  /** Condition types are open-ended strings; only "Ready" is looked for. */
  type PodConditionType = string

  /** The condition type named PodReady in core/v1. */
  const ReadyConditionType: PodConditionType := "Ready"

  datatype PodCondition = PodCondition(conditionType: PodConditionType, status: ConditionStatus)

  /** A container's runtime status; only its restart counter is consulted. */
  datatype ContainerStatus = ContainerStatus(name: string, restartCount: int)

  datatype PodStatus = PodStatus(
    phase: PodPhase,
    conditions: seq<PodCondition>,
    initContainerStatuses: seq<ContainerStatus>,
    containerStatuses: seq<ContainerStatus>)

  /** An environment variable of a container. */
  datatype EnvVar = EnvVar(name: string, value: string)

  /** A container of a pod's spec; only its environment is touched. */
  datatype Container = Container(name: string, env: seq<EnvVar>)

  /**
   * The container lists of a pod's spec. A Go slice of structs is a fixed
   * block of elements that can be updated in place, so each list is an array.
   */
  datatype PodSpec = PodSpec(initContainers: array<Container>, containers: array<Container>)

  /**
   * Object metadata. The deletion timestamp is kept only as present or
   * absent; the time value it carries is an opaque number.
   */
  datatype ObjectMeta = ObjectMeta(
    name: string,
    namespace: string,
    labels: map<string, string>,
    deletionTimestamp: Option<int>)

  datatype Pod = Pod(meta: ObjectMeta, spec: PodSpec, status: PodStatus)
}
