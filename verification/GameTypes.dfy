/** Templates and servers, in the shape the webhook, the builders and the reconcilers read them. */
module GameTypes {
  import opened Prelude
  import opened Conditions

  datatype Exposure = ClusterIP | NodePort | LoadBalancer
  datatype Protocol = TCP | UDP

  /** Unset protocol and exposure fall back to TCP and ClusterIP. */
  datatype TemplatePort = TemplatePort(
    name: string,
    containerPort: int,
    protocol: Option<Protocol>,
    exposeAs: Option<Exposure>,
    primary: bool)

  /** A container environment variable: a literal value or a reference to where the value comes from. */
  datatype EnvVar = EnvVar(name: string, value: string, source: Option<string>)

  datatype KeyType = UnsetType | StringType | IntType | BoolType | EnumType

  datatype ConfigKey = ConfigKey(
    name: string,
    envVar: string,
    kind: KeyType,
    choices: seq<string>,
    default: string,
    required: bool)

  datatype TemplateSpec = TemplateSpec(
    image: string,
    ports: seq<TemplatePort>,
    env: seq<EnvVar>,
    configKeys: seq<ConfigKey>,
    defaultSize: string,
    anyUID: bool)

  /** A pinned node port of 0 means none was pinned. */
  datatype ExposureOverride = ExposureOverride(portName: string, exposeAs: Exposure, nodePort: int)

  datatype ServerSpec = ServerSpec(
    template: string,
    config: map<string, string>,
    size: string,
    className: string,
    exposeOverride: seq<ExposureOverride>,
    suspend: bool,
    envOverride: seq<EnvVar>,
    restoreFrom: Option<string>)

  /** String predicates of the Go libraries the builders call. */
  datatype Syntax = Syntax(isInt: string -> bool, isBool: string -> bool, isQuantity: string -> bool)
}
