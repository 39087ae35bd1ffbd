/** The records of internal/models that more than one component uses. A time is a
    positive number of ticks; zero is Go's zero time. */
module Models {

  datatype Option<+T> = None | Some(value: T)

  datatype EndpointState = EndpointState(
    active: int,
    queueLen: int,
    healthy: bool,
    maxConcurrent: int,
    plugin: bool,
    responseTime: int,
    lastSeen: int)

  datatype EndpointMetadata = EndpointMetadata(nodePath: string, maxConcurrent: int, plugin: bool)

  datatype RemoteNode = RemoteNode(
    nodeID: string,
    address: string,
    servicePort: int,
    servicePath: string,
    nodePath: string,
    states: map<string, EndpointState>,
    descriptions: map<string, EndpointMetadata>,
    lastSeen: int)

  datatype LocalEndpoint = LocalEndpoint(
    serviceID: string,
    epID: string,
    servicePath: string,
    nodePath: string,
    healthy: bool,
    lastHeartbeat: int,
    active: int,
    queueLen: int,
    maxConcurrent: int,
    plugin: bool)
}
