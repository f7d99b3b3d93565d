/**
 * The parsed descriptor document.  The source indexes a YAML dictionary;
 * the model gives each section the core reads a typed field.  An optional
 * section is `None` when its key is absent from the document.
 */
module Content {
  import opened Wrappers

  /** An entry of a `connection_points` list; only unit entries carry a port. */
  datatype CpDecl = CpDecl(id: string, port: Option<int>)

  /** An entry of `virtual_links`: `connection_points_reference` is `refs`. */
  datatype VlDecl = VlDecl(id: string, connectivityType: string, refs: seq<string>)

  /** The `parameters` of a cloud-native unit; an absent or empty dictionary
      is an empty sequence. */
  datatype UnitParams = UnitParams(
    env: seq<(string, string)>,
    k8sDeployment: seq<(string, string)>,
    k8sService: seq<(string, string)>)

  /** An entry of `virtual_deployment_units` or `cloudnative_deployment_units`. */
  datatype UnitDecl = UnitDecl(
    id: string,
    connectionPoints: Option<seq<CpDecl>>,
    parameters: Option<UnitParams>)

  /** An entry of a service's `network_functions`. */
  datatype NfDecl = NfDecl(vnfId: string, vendor: string, name: string, version: string)

  /** An entry of a forwarding path's `connection_points`. */
  datatype FpCpDecl = FpCpDecl(ref: string, position: int)

  /** An entry of `network_forwarding_paths`. */
  datatype FpDecl = FpDecl(fpId: string, cps: seq<FpCpDecl>)

  /** An entry of `forwarding_graphs`. */
  datatype FgDecl = FgDecl(fgId: string, paths: seq<FpDecl>)

  /** A non-empty descriptor document. */
  datatype Content = Content(
    connectionPoints: Option<seq<CpDecl>>,
    virtualLinks: Option<seq<VlDecl>>,
    vdus: Option<seq<UnitDecl>>,
    cdus: Option<seq<UnitDecl>>,
    networkFunctions: Option<seq<NfDecl>>,
    forwardingGraphs: Option<seq<FgDecl>>)

  /** What reading a descriptor path yields: no such file, or a file whose
      content is `None` when it could not be parsed or was empty. */
  datatype DescriptorFile = Missing | Present(content: Option<Content>)
}
