/** The part of an OCI LinuxResources record that micrun reads. */
module OciSpecs {
  import opened Wrappers

  datatype LinuxCPU = LinuxCPU(cpus: string, mems: string, quota: Option<int>, period: Option<nat>)
  datatype LinuxMemory = LinuxMemory(limit: Option<int>, reservation: Option<int>)
  datatype LinuxResources = LinuxResources(cpu: Option<LinuxCPU>, memory: Option<LinuxMemory>, hugepages: seq<nat>)

  const NO_CPU: LinuxCPU := LinuxCPU("", "", None, None)
  const NO_MEMORY: LinuxMemory := LinuxMemory(None, None)
  const NO_RESOURCES: LinuxResources := LinuxResources(None, None, [])
}
