/** Protected resources, and what a backend answers when asked to act on one. */
module Resource {
  datatype ResourceIdentity = ResourceIdentity(vendor: string, kind: string, localId: string)

  datatype Action = Compute | Unknown

  datatype ComputeRequest = ComputeRequest(resource: ResourceIdentity, action: Action)

  datatype Capability =
    | DiscoverResource | ObserveResource | ObserveWorkload | AttributeWorkload
    | Authorize | ControlledLaunch | DeviceEnforce | DeviceRevoke | Attest

  datatype EnforcementResult =
    | Allowed
    | Denied(reason: string)
    | EnforcementUnsupported(capability: Capability)
    | EnforcementError(message: string)

  datatype BackendError =
    | LacksCapability(capability: Capability)
    | Unavailable(resource: ResourceIdentity)
    | PermissionDenied
    | Transient(message: string)
    | Invariant(message: string)
}
