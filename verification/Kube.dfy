/** The fragments of the Kubernetes API objects that the webhook reads and rewrites. */
module Kube {
  import opened GoText

  datatype KeyRef = KeyRef(name: string, key: string)

  datatype EnvSource = EnvSource(configMapKeyRef: Option<KeyRef>, secretKeyRef: Option<KeyRef>)

  datatype EnvVar = EnvVar(name: string, value: string, valueFrom: Option<EnvSource>)

  /** `optional` holds when the flag is present and set; an absent flag counts as false. */
  datatype SourceRef = SourceRef(name: string, optional: bool)

  datatype EnvFrom = EnvFrom(configMapRef: Option<SourceRef>, secretRef: Option<SourceRef>)

  datatype Mount = Mount(name: string, path: string)

  datatype PullPolicy = Always | IfNotPresent | Never | Unset

  /** `sidecar` stands for an init container whose restart policy is Always. */
  datatype Container = Container(
    name: string, image: string, pullPolicy: PullPolicy,
    command: seq<string>, args: seq<string>,
    env: seq<EnvVar>, envFrom: seq<EnvFrom>, mounts: seq<Mount>, sidecar: bool)

  datatype VolumeSource = MemoryDir | Secret(secretName: string) | OtherSource(description: string)

  datatype Volume = Volume(name: string, source: VolumeSource)

  datatype ImageConfig = ImageConfig(entrypoint: seq<string>, cmd: seq<string>)

  function Literal(name: string, value: string): EnvVar {
    EnvVar(name, value, None)
  }

  /**
   * The argv Kubernetes runs: the container's command replaces the image's ENTRYPOINT and CMD, and
   * the container's args replace CMD.
   */
  function KubeArgv(command: seq<string>, args: seq<string>, image: ImageConfig): seq<string> {
    if command != [] then command + args
    else if args != [] then image.entrypoint + args
    else image.entrypoint + image.cmd
  }

  predicate Mounts(c: Container, volume: string) {
    exists m :: m in c.mounts && m.name == volume
  }

  predicate Declares(volumes: seq<Volume>, name: string) {
    exists v :: v in volumes && v.name == name
  }
}
