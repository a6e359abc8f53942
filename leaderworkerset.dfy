/**
 * The label keys and the environment-variable name shared with the
 * leader/worker-set API. Their values are deliberately left unspecified, so
 * every property proved here holds whatever strings they are.
 */
module LeaderWorkerSet {

  /** Label carrying the name of the leader/worker set a pod belongs to. */
  const SetNameLabelKey: string

  /** Label carrying the index of the group within the set. */
  const GroupIndexLabelKey: string

  /** Label carrying the index of the pod within its group; "0" is the leader. */
  const WorkerIndexLabelKey: string

  /** Name of the environment variable that holds the leader's address. */
  const LwsLeaderAddress: string
}
