/** The Cluster resource. */
module ClusterApi {
  import opened Objects

  /** A cluster known to the registry, as its Cluster resource describes it. */
  datatype ClusterResource = ClusterResource(
    name: string,
    clusterId: ClusterId,
    secretNamespace: string,
    secretName: string,
    disabled: bool,
    state: ClusterState)

  datatype ClusterState = Ready | Failed | Disabled | MissingAuthInfo | InvalidAuthInfo
}
