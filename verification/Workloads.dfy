/** The values that server and agent exchange about workloads. */
module Workloads {
  import opened Options

  datatype InstanceName = InstanceName(agentName: string, workloadName: string, id: string)
  datatype AddCondition = AddCondRunning | AddCondSucceeded | AddCondFailed
  datatype DeleteCondition = DelCondRunning | DelCondNotPendingNorRunning

  /** A workload; `config` stands for the fields that are only compared and passed on. */
  datatype WorkloadSpec = WorkloadSpec(
    runtime: string,
    dependencies: map<string, AddCondition>,
    needsControlInterface: bool,
    config: string)

  datatype WorkloadNamed = WorkloadNamed(instanceName: InstanceName, workload: WorkloadSpec)
  datatype DeletedWorkload = DeletedWorkload(instanceName: InstanceName, dependencies: map<string, DeleteCondition>)
  datatype ReusableWorkload = ReusableWorkload(workloadNamed: WorkloadNamed, runtimeWorkloadId: Option<string>)

  datatype WorkloadOperation =
    | Create(reusable: ReusableWorkload)
    | Update(newWorkload: WorkloadNamed, oldWorkload: DeletedWorkload)
    | UpdateDeleteOnly(oldWorkload: DeletedWorkload)
    | Delete(oldWorkload: DeletedWorkload)

  function NameOf(w: WorkloadNamed): string {
    w.instanceName.workloadName
  }

  function ReusableName(r: ReusableWorkload): string {
    NameOf(r.workloadNamed)
  }

  function DeletedName(d: DeletedWorkload): string {
    d.instanceName.workloadName
  }

  function OperationName(op: WorkloadOperation): string {
    match op
    case Create(r) => ReusableName(r)
    case Update(w, _) => NameOf(w)
    case UpdateDeleteOnly(d) => DeletedName(d)
    case Delete(d) => DeletedName(d)
  }
}
