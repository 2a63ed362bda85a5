/**
  The typed ClickOnce deployment manifest and its decoding from an XML tree
  (clickonce/src/deploymentmanifest.rs). Each struct of the source is a
  datatype here; the static constants on it are its fields' alias tables
  (the snake_case name serde derives, then the `#[serde(alias)]` names), and
  `Decode<Struct>` is what serde's derived visitor does with an element:
  look every field up by its spellings, apply `default` where one is
  declared, and fail the whole struct when a required field is missing or
  malformed. Enums accept exactly their variant names and declared aliases.
*/
module ClickOnce {
  import opened Wrappers
  import opened Xml
  import opened Fields
  import opened Primitives

  /** `default_win32`: the value of `AssemblyIdentity.type` when the attribute is absent. */
  function DefaultWin32(): (r: string)
    ensures r == "win32"
  {
    "win32"
  }

  /** `default_false`: the value of the optional `Deployment` flags when they are absent. */
  function DefaultFalse(): (r: bool)
    ensures !r
  {
    false
  }

  /** The whole document: `#[serde(transparent)]` over its single `assembly`. */
  datatype DeploymentManifest = DeploymentManifest(assembly: Assembly)

  datatype Assembly = Assembly(
    manifestVersion: string,
    assemblyIdentity: AssemblyIdentity,
    description: Description,
    deployment: Option<Deployment>,
    compatibleFrameworks: CompatibleFrameworks,
    dependency: seq<Dependency>)
  {
    static const ManifestVersion := FieldName("manifest_version", ["manifestVersion"])
    static const AssemblyIdentity := FieldName("assembly_identity", ["assemblyIdentity"])
    static const Description := FieldName("description", [])
    static const Deployment := FieldName("deployment", [])
    static const CompatibleFrameworks := FieldName("compatible_frameworks", ["compatibleFrameworks"])
    static const Dependency := FieldName("dependency", [])
    static const Fields: seq<FieldName> :=
      [ManifestVersion, AssemblyIdentity, Description, Deployment, CompatibleFrameworks, Dependency]
  }

  datatype AssemblyIdentity = AssemblyIdentity(
    name: string,
    version: string,
    publicKeyToken: string,
    processorArchitecture: ProcessorArchitecture,
    assemblyType: string)
  {
    static const Name := FieldName("name", [])
    static const Version := FieldName("version", [])
    static const PublicKeyToken := FieldName("public_key_token", ["publicKeyToken"])
    static const ProcessorArchitecture := FieldName("processor_architecture", ["processorArchitecture"])
    // The source declares `alias = "type"` on `r#type`, whose serde name is already `type`.
    static const Type := FieldName("type", ["type"])
    static const Fields: seq<FieldName> := [Name, Version, PublicKeyToken, ProcessorArchitecture, Type]
  }

  datatype ProcessorArchitecture = Msil | X86 | IA64 | Itanium {
    /** The variant name serde derives, then its declared aliases. */
    function Spellings(): seq<string> {
      match this
      case Msil => ["Msil", "msil"]
      case X86 => ["X86", "x86"]
      case IA64 => ["IA64"]
      case Itanium => ["Itanium"]
    }
  }

  datatype Description = Description(
    publisher: string,
    product: string,
    suiteName: Option<string>,
    supportUrl: Option<string>)
  {
    static const Publisher := FieldName("publisher", [])
    static const Product := FieldName("product", [])
    static const SuiteName := FieldName("suite_name", ["suiteName"])
    static const SupportUrl := FieldName("support_url", ["supportUrl"])
    static const Fields: seq<FieldName> := [Publisher, Product, SuiteName, SupportUrl]
  }

  datatype Deployment = Deployment(
    install: bool,
    minimumRequiredVersion: Option<string>,
    mapFileExtensions: bool,
    disallowUrlActivation: bool,
    trustUrlParameters: bool,
    subscription: Subscription,
    deploymentProvider: Option<DeploymentProvider>)
  {
    static const Install := FieldName("install", [])
    static const MinimumRequiredVersion := FieldName("minimum_required_version", ["minimumRequiredVersion"])
    static const MapFileExtensions := FieldName("map_file_extensions", ["mapFileExtensions"])
    static const DisallowUrlActivation := FieldName("disallow_url_activation", ["disallowUrlActivation"])
    static const TrustUrlParameters := FieldName("trust_url_parameters", ["trustURLParameters"])
    static const Subscription := FieldName("subscription", [])
    static const DeploymentProvider := FieldName("deployment_provider", ["deploymentProvider"])
    static const Fields: seq<FieldName> :=
      [Install, MinimumRequiredVersion, MapFileExtensions, DisallowUrlActivation, TrustUrlParameters,
       Subscription, DeploymentProvider]
  }

  datatype Subscription = Subscription(update: Update) {
    static const Update := FieldName("update", [])
    static const Fields: seq<FieldName> := [Update]
  }

  /** The choice inside `<update>`: no child, `beforeApplicationStartup`, or `expiration`. */
  datatype Update = None | BeforeApplicationStartup | Expiration(expiration: Expiration) {
    static const NoneNames: seq<string> := ["None"]
    static const BeforeApplicationStartupNames: seq<string> := ["BeforeApplicationStartup", "beforeApplicationStartup"]
    static const ExpirationNames: seq<string> := ["Expiration", "expiration"]

    /** The variant name serde derives, then its declared aliases. */
    function Spellings(): seq<string> {
      match this
      case None => NoneNames
      case BeforeApplicationStartup => BeforeApplicationStartupNames
      case Expiration(_) => ExpirationNames
    }
  }

  datatype Expiration = Expiration(maximumAge: string, unit: string) {
    static const MaximumAge := FieldName("maximum_age", ["maximumAge"])
    static const Unit := FieldName("unit", [])
    static const Fields: seq<FieldName> := [MaximumAge, Unit]
  }

  datatype DeploymentProvider = DeploymentProvider(codebase: string) {
    static const Codebase := FieldName("codebase", [])
    static const Fields: seq<FieldName> := [Codebase]
  }

  datatype CompatibleFrameworks = CompatibleFrameworks(supportUrl: Option<string>, frameworks: seq<Framework>) {
    // Unlike Description.SupportUrl, this field declares no alias.
    static const SupportUrl := FieldName("support_url", [])
    static const Frameworks := FieldName("frameworks", ["framework"])
    static const Fields: seq<FieldName> := [SupportUrl, Frameworks]
  }

  datatype Framework = Framework(targetVersion: string, profile: string, supportedRuntime: string) {
    static const TargetVersion := FieldName("target_version", ["targetVersion"])
    static const Profile := FieldName("profile", [])
    static const SupportedRuntime := FieldName("supported_runtime", ["supportedRuntime"])
    static const Fields: seq<FieldName> := [TargetVersion, Profile, SupportedRuntime]
  }

  datatype Dependency = Dependency(dependentAssembly: DependentAssembly) {
    static const DependentAssembly := FieldName("dependent_assembly", ["dependentAssembly"])
    static const Fields: seq<FieldName> := [DependentAssembly]
  }

  datatype DependentAssembly = DependentAssembly(
    prerequisite: Option<bool>,
    visible: Option<string>,
    dependencyType: DependencyType,
    codebase: Option<string>,
    size: uint32,
    assemblyIdentity: AssemblyIdentity,
    hash: Option<Hash>)
  {
    static const Prerequisite := FieldName("prerequisite", ["preRequisite"])
    static const Visible := FieldName("visible", [])
    static const DependencyType := FieldName("dependency_type", ["dependencyType"])
    static const Codebase := FieldName("codebase", [])
    static const Size := FieldName("size", [])
    static const AssemblyIdentity := FieldName("assembly_identity", ["assemblyIdentity"])
    static const Hash := FieldName("hash", [])
    static const Fields: seq<FieldName> :=
      [Prerequisite, Visible, DependencyType, Codebase, Size, AssemblyIdentity, Hash]
  }

  datatype DependencyType = Install | Prerequisite {
    /** The variant name serde derives, then its declared alias. */
    function Spellings(): seq<string> {
      match this
      case Install => ["Install", "install"]
      case Prerequisite => ["Prerequisite", "preRequisite"]
    }
  }

  datatype Hash = Hash(dsigTransforms: DsigTransforms, dsigDigestMethod: DsigDigestMethod, dsigDigestValue: DsigDigestValue) {
    static const Transforms := FieldName("dsig_transforms", ["Transforms"])
    static const DigestMethod := FieldName("dsig_digest_method", ["DigestMethod"])
    static const DigestValue := FieldName("dsig_digest_value", ["DigestValue"])
    static const Fields: seq<FieldName> := [Transforms, DigestMethod, DigestValue]
  }

  datatype DsigTransforms = DsigTransforms(dsigTransform: DsigTransform) {
    static const Transform := FieldName("dsig_transform", ["Transform"])
    static const Fields: seq<FieldName> := [Transform]
  }

  datatype DsigTransform = DsigTransform(algorithm: string) {
    static const Algorithm := FieldName("algorithm", ["Algorithm"])
    static const Fields: seq<FieldName> := [Algorithm]
  }

  datatype DsigDigestMethod = DsigDigestMethod(algorithm: string) {
    static const Algorithm := FieldName("algorithm", ["Algorithm"])
    static const Fields: seq<FieldName> := [Algorithm]
  }

  /** `rename = "$value"`: the element's character data, not an attribute. */
  datatype DsigDigestValue = DsigDigestValue(value: string)

  // ---------------------------------------------------------------------------
  // Enum parsers: exactly the variant names and their aliases, nothing else.

  function ParseProcessorArchitecture(s: string): (r: Option<ProcessorArchitecture>)
    ensures forall a: ProcessorArchitecture :: r == Some(a) <==> s in a.Spellings()
  {
    if s in Msil.Spellings() then Some(Msil)
    else if s in X86.Spellings() then Some(X86)
    else if s in IA64.Spellings() then Some(IA64)
    else if s in Itanium.Spellings() then Some(Itanium)
    else Option.None
  }

  function ParseDependencyType(s: string): (r: Option<DependencyType>)
    ensures forall t: DependencyType :: r == Some(t) <==> s in t.Spellings()
  {
    if s in Install.Spellings() then Some(Install)
    else if s in Prerequisite.Spellings() then Some(Prerequisite)
    else Option.None
  }

  // ---------------------------------------------------------------------------
  // Struct decoders, one per struct, each reading the body of its element.

  function DecodeDeploymentManifest(b: Body): (r: Decoded<DeploymentManifest>)
    ensures r.Ok? <==> DecodeAssembly(b).Ok?
    ensures r.Ok? ==> r.value.assembly == DecodeAssembly(b).value
    ensures r.Err? ==> r.error == DecodeAssembly(b).error
  {
    var assembly :- DecodeAssembly(b);
    Ok(DeploymentManifest(assembly))
  }

  function DecodeAssembly(b: Body): (r: Decoded<Assembly>)
    ensures (Absent(b, Assembly.ManifestVersion) || Absent(b, Assembly.AssemblyIdentity)
         || Absent(b, Assembly.Description) || Absent(b, Assembly.CompatibleFrameworks)
         || Absent(b, Assembly.Dependency)) ==> r.Err?
    ensures r.Ok? ==> Gives(b, Assembly.ManifestVersion, r.value.manifestVersion)
    ensures r.Ok? ==> GivesChild(b, Assembly.AssemblyIdentity, DecodeAssemblyIdentity, r.value.assemblyIdentity)
    ensures r.Ok? ==> GivesChild(b, Assembly.Description, DecodeDescription, r.value.description)
    ensures r.Ok? ==> (r.value.deployment.None? <==> Absent(b, Assembly.Deployment))
    ensures r.Ok? && r.value.deployment.Some? ==>
              GivesChild(b, Assembly.Deployment, DecodeDeployment, r.value.deployment.value)
    ensures r.Ok? ==>
              GivesChild(b, Assembly.CompatibleFrameworks, DecodeCompatibleFrameworks, r.value.compatibleFrameworks)
    ensures r.Ok? ==> r.value.dependency != [] && GivesList(b, Assembly.Dependency, DecodeDependency, r.value.dependency)
  {
    var manifestVersion :- RequiredText(b, Assembly.ManifestVersion);
    var assemblyIdentity :- RequiredChild(b, Assembly.AssemblyIdentity, DecodeAssemblyIdentity);
    var description :- RequiredChild(b, Assembly.Description, DecodeDescription);
    var deployment :- OptionalChild(b, Assembly.Deployment, DecodeDeployment);
    var compatibleFrameworks :- RequiredChild(b, Assembly.CompatibleFrameworks, DecodeCompatibleFrameworks);
    var dependency :- Children(b, Assembly.Dependency, DecodeDependency);
    Ok(Assembly(manifestVersion, assemblyIdentity, description, deployment, compatibleFrameworks, dependency))
  }

  function DecodeAssemblyIdentity(b: Body): (r: Decoded<AssemblyIdentity>)
    ensures (Absent(b, AssemblyIdentity.Name) || Absent(b, AssemblyIdentity.Version)
         || Absent(b, AssemblyIdentity.PublicKeyToken) || Absent(b, AssemblyIdentity.ProcessorArchitecture)) ==> r.Err?
    ensures r.Ok? ==> Gives(b, AssemblyIdentity.Name, r.value.name)
    ensures r.Ok? ==> Gives(b, AssemblyIdentity.Version, r.value.version)
    ensures r.Ok? ==> Gives(b, AssemblyIdentity.PublicKeyToken, r.value.publicKeyToken)
    ensures r.Ok? ==> GivesParsed(b, AssemblyIdentity.ProcessorArchitecture, ParseProcessorArchitecture,
                                  r.value.processorArchitecture)
    ensures r.Ok? ==> if Absent(b, AssemblyIdentity.Type) then r.value.assemblyType == "win32"
                      else Gives(b, AssemblyIdentity.Type, r.value.assemblyType)
  {
    var name :- RequiredText(b, AssemblyIdentity.Name);
    var version :- RequiredText(b, AssemblyIdentity.Version);
    var publicKeyToken :- RequiredText(b, AssemblyIdentity.PublicKeyToken);
    var processorArchitecture :- RequiredParsed(b, AssemblyIdentity.ProcessorArchitecture, ParseProcessorArchitecture);
    var assemblyType :- TextOr(b, AssemblyIdentity.Type, DefaultWin32());
    Ok(AssemblyIdentity(name, version, publicKeyToken, processorArchitecture, assemblyType))
  }

  function DecodeDescription(b: Body): (r: Decoded<Description>)
    ensures (Absent(b, Description.Publisher) || Absent(b, Description.Product)) ==> r.Err?
    ensures r.Ok? ==> Gives(b, Description.Publisher, r.value.publisher)
    ensures r.Ok? ==> Gives(b, Description.Product, r.value.product)
    ensures r.Ok? ==> FieldText(b, Description.SuiteName) == Ok(r.value.suiteName)
    ensures r.Ok? ==> FieldText(b, Description.SupportUrl) == Ok(r.value.supportUrl)
  {
    var publisher :- RequiredText(b, Description.Publisher);
    var product :- RequiredText(b, Description.Product);
    var suiteName :- FieldText(b, Description.SuiteName);
    var supportUrl :- FieldText(b, Description.SupportUrl);
    Ok(Description(publisher, product, suiteName, supportUrl))
  }

  function DecodeDeployment(b: Body): (r: Decoded<Deployment>)
    ensures (Absent(b, Deployment.Install) || Absent(b, Deployment.Subscription)) ==> r.Err?
    ensures r.Ok? ==> GivesParsed(b, Deployment.Install, ParseBool, r.value.install)
    ensures r.Ok? ==> FieldText(b, Deployment.MinimumRequiredVersion) == Ok(r.value.minimumRequiredVersion)
    ensures r.Ok? ==> if Absent(b, Deployment.MapFileExtensions) then !r.value.mapFileExtensions
                      else GivesParsed(b, Deployment.MapFileExtensions, ParseBool, r.value.mapFileExtensions)
    ensures r.Ok? ==> if Absent(b, Deployment.DisallowUrlActivation) then !r.value.disallowUrlActivation
                      else GivesParsed(b, Deployment.DisallowUrlActivation, ParseBool, r.value.disallowUrlActivation)
    ensures r.Ok? ==> if Absent(b, Deployment.TrustUrlParameters) then !r.value.trustUrlParameters
                      else GivesParsed(b, Deployment.TrustUrlParameters, ParseBool, r.value.trustUrlParameters)
    ensures r.Ok? ==> GivesChild(b, Deployment.Subscription, DecodeSubscription, r.value.subscription)
    ensures r.Ok? ==> (r.value.deploymentProvider.None? <==> Absent(b, Deployment.DeploymentProvider))
    ensures r.Ok? && r.value.deploymentProvider.Some? ==>
              GivesChild(b, Deployment.DeploymentProvider, DecodeDeploymentProvider, r.value.deploymentProvider.value)
  {
    var install :- RequiredParsed(b, Deployment.Install, ParseBool);
    var minimumRequiredVersion :- FieldText(b, Deployment.MinimumRequiredVersion);
    var mapFileExtensions :- ParsedOr(b, Deployment.MapFileExtensions, ParseBool, DefaultFalse());
    var disallowUrlActivation :- ParsedOr(b, Deployment.DisallowUrlActivation, ParseBool, DefaultFalse());
    var trustUrlParameters :- ParsedOr(b, Deployment.TrustUrlParameters, ParseBool, DefaultFalse());
    var subscription :- RequiredChild(b, Deployment.Subscription, DecodeSubscription);
    var deploymentProvider :- OptionalChild(b, Deployment.DeploymentProvider, DecodeDeploymentProvider);
    Ok(Deployment(install, minimumRequiredVersion, mapFileExtensions, disallowUrlActivation, trustUrlParameters,
                  subscription, deploymentProvider))
  }

  function DecodeSubscription(b: Body): (r: Decoded<Subscription>)
    ensures Absent(b, Subscription.Update) ==> r.Err?
    ensures r.Ok? ==> GivesChild(b, Subscription.Update, DecodeUpdate, r.value.update)
  {
    var update :- RequiredChild(b, Subscription.Update, DecodeUpdate);
    Ok(Subscription(update))
  }

  /** An element with no attributes, no child elements and no character data. */
  predicate EmptyBody(b: Body) {
    b.attributes == [] && b.children == [] && b.text == []
  }

  /**
    The variant is named by what comes first inside `<update>`: a child
    element's name, or else its character data. A unit variant's element
    must be empty; `Expiration` must be an element, whose body is the
    struct. Nothing at all inside `<update>` names no variant and is an
    error, and a second child element is refused where the closing tag is
    expected.
  */
  function DecodeUpdate(b: Body): (r: Decoded<Update>)
    ensures b.children == [] && b.text == [] ==> r == Err(UnexpectedToken("update"))
    ensures |b.children| > 1 ==> r == Err(AmbiguousChoice("update"))
    ensures r.Ok? && b.children != [] ==> |b.children| == 1 && b.children[0].name in r.value.Spellings()
    ensures r.Ok? && b.children == [] ==> b.text in r.value.Spellings() && !r.value.Expiration?
    ensures r.Ok? && b.children != [] && !r.value.Expiration? ==> EmptyBody(b.children[0].body)
    ensures r.Ok? && r.value.Expiration? ==>
              |b.children| == 1 && DecodeExpiration(b.children[0].body) == Ok(r.value.expiration)
  {
    if b.children == [] then
      if b.text == [] then Err(UnexpectedToken("update"))
      else if b.text in Update.NoneNames then Ok(Update.None)
      else if b.text in Update.BeforeApplicationStartupNames then Ok(Update.BeforeApplicationStartup)
      else if b.text in Update.ExpirationNames then Err(UnexpectedToken("expiration"))
      else Err(UnknownVariant(b.text))
    else if |b.children| > 1 then Err(AmbiguousChoice("update"))
    else
      var child := b.children[0];
      if child.name in Update.NoneNames then UnitVariant(child, Update.None)
      else if child.name in Update.BeforeApplicationStartupNames then UnitVariant(child, Update.BeforeApplicationStartup)
      else if child.name in Update.ExpirationNames then
        var expiration :- DecodeExpiration(child.body);
        Ok(Update.Expiration(expiration))
      else Err(UnknownVariant(child.name))
  }

  /**
    A unit variant written as an element: attributes are refused by their
    count, and any content where the closing tag is expected.
  */
  function UnitVariant(child: Element, u: Update): (r: Decoded<Update>)
    ensures r.Ok? <==> EmptyBody(child.body)
    ensures r.Ok? ==> r.value == u
    ensures child.body.attributes != [] ==> r == Err(InvalidLength(|child.body.attributes|))
    ensures child.body.attributes == [] && !EmptyBody(child.body) ==> r == Err(UnexpectedToken(child.name))
  {
    if child.body.attributes != [] then Err(InvalidLength(|child.body.attributes|))
    else if child.body.children != [] || child.body.text != [] then Err(UnexpectedToken(child.name))
    else Ok(u)
  }

  function DecodeExpiration(b: Body): (r: Decoded<Expiration>)
    ensures (Absent(b, Expiration.MaximumAge) || Absent(b, Expiration.Unit)) ==> r.Err?
    ensures r.Ok? ==> Gives(b, Expiration.MaximumAge, r.value.maximumAge)
    ensures r.Ok? ==> Gives(b, Expiration.Unit, r.value.unit)
  {
    var maximumAge :- RequiredText(b, Expiration.MaximumAge);
    var unit :- RequiredText(b, Expiration.Unit);
    Ok(Expiration.Expiration(maximumAge, unit))
  }

  function DecodeDeploymentProvider(b: Body): (r: Decoded<DeploymentProvider>)
    ensures Absent(b, DeploymentProvider.Codebase) ==> r.Err?
    ensures r.Ok? ==> Gives(b, DeploymentProvider.Codebase, r.value.codebase)
  {
    var codebase :- RequiredText(b, DeploymentProvider.Codebase);
    Ok(DeploymentProvider(codebase))
  }

  function DecodeCompatibleFrameworks(b: Body): (r: Decoded<CompatibleFrameworks>)
    ensures Absent(b, CompatibleFrameworks.Frameworks) ==> r.Err?
    ensures r.Ok? ==> FieldText(b, CompatibleFrameworks.SupportUrl) == Ok(r.value.supportUrl)
    ensures r.Ok? ==> r.value.frameworks != [] &&
                      GivesList(b, CompatibleFrameworks.Frameworks, DecodeFramework, r.value.frameworks)
  {
    var supportUrl :- FieldText(b, CompatibleFrameworks.SupportUrl);
    var frameworks :- Children(b, CompatibleFrameworks.Frameworks, DecodeFramework);
    Ok(CompatibleFrameworks(supportUrl, frameworks))
  }

  function DecodeFramework(b: Body): (r: Decoded<Framework>)
    ensures (Absent(b, Framework.TargetVersion) || Absent(b, Framework.Profile)
         || Absent(b, Framework.SupportedRuntime)) ==> r.Err?
    ensures r.Ok? ==> Gives(b, Framework.TargetVersion, r.value.targetVersion)
    ensures r.Ok? ==> Gives(b, Framework.Profile, r.value.profile)
    ensures r.Ok? ==> Gives(b, Framework.SupportedRuntime, r.value.supportedRuntime)
  {
    var targetVersion :- RequiredText(b, Framework.TargetVersion);
    var profile :- RequiredText(b, Framework.Profile);
    var supportedRuntime :- RequiredText(b, Framework.SupportedRuntime);
    Ok(Framework(targetVersion, profile, supportedRuntime))
  }

  function DecodeDependency(b: Body): (r: Decoded<Dependency>)
    ensures Absent(b, Dependency.DependentAssembly) ==> r.Err?
    ensures r.Ok? ==> GivesChild(b, Dependency.DependentAssembly, DecodeDependentAssembly, r.value.dependentAssembly)
  {
    var dependentAssembly :- RequiredChild(b, Dependency.DependentAssembly, DecodeDependentAssembly);
    Ok(Dependency(dependentAssembly))
  }

  function DecodeDependentAssembly(b: Body): (r: Decoded<DependentAssembly>)
    ensures (Absent(b, DependentAssembly.DependencyType) || Absent(b, DependentAssembly.Size)
         || Absent(b, DependentAssembly.AssemblyIdentity)) ==> r.Err?
    ensures r.Ok? ==> (r.value.prerequisite.None? <==> Absent(b, DependentAssembly.Prerequisite))
    ensures r.Ok? && r.value.prerequisite.Some? ==>
              GivesParsed(b, DependentAssembly.Prerequisite, ParseBool, r.value.prerequisite.value)
    ensures r.Ok? ==> FieldText(b, DependentAssembly.Visible) == Ok(r.value.visible)
    ensures r.Ok? ==> GivesParsed(b, DependentAssembly.DependencyType, ParseDependencyType, r.value.dependencyType)
    ensures r.Ok? ==> FieldText(b, DependentAssembly.Codebase) == Ok(r.value.codebase)
    ensures r.Ok? ==> GivesParsed(b, DependentAssembly.Size, ParseU32, r.value.size)
    ensures r.Ok? ==> GivesChild(b, DependentAssembly.AssemblyIdentity, DecodeAssemblyIdentity, r.value.assemblyIdentity)
    ensures r.Ok? ==> (r.value.hash.None? <==> Absent(b, DependentAssembly.Hash))
    ensures r.Ok? && r.value.hash.Some? ==> GivesChild(b, DependentAssembly.Hash, DecodeHash, r.value.hash.value)
  {
    var prerequisite :- OptionalParsed(b, DependentAssembly.Prerequisite, ParseBool);
    var visible :- FieldText(b, DependentAssembly.Visible);
    var dependencyType :- RequiredParsed(b, DependentAssembly.DependencyType, ParseDependencyType);
    var codebase :- FieldText(b, DependentAssembly.Codebase);
    var size :- RequiredParsed(b, DependentAssembly.Size, ParseU32);
    var assemblyIdentity :- RequiredChild(b, DependentAssembly.AssemblyIdentity, DecodeAssemblyIdentity);
    var hash :- OptionalChild(b, DependentAssembly.Hash, DecodeHash);
    Ok(DependentAssembly(prerequisite, visible, dependencyType, codebase, size, assemblyIdentity, hash))
  }

  function DecodeHash(b: Body): (r: Decoded<Hash>)
    ensures (Absent(b, Hash.Transforms) || Absent(b, Hash.DigestMethod) || Absent(b, Hash.DigestValue)) ==> r.Err?
    ensures r.Ok? ==> GivesChild(b, Hash.Transforms, DecodeDsigTransforms, r.value.dsigTransforms)
    ensures r.Ok? ==> GivesChild(b, Hash.DigestMethod, DecodeDsigDigestMethod, r.value.dsigDigestMethod)
    ensures r.Ok? ==> GivesChild(b, Hash.DigestValue, DecodeDsigDigestValue, r.value.dsigDigestValue)
  {
    var transforms :- RequiredChild(b, Hash.Transforms, DecodeDsigTransforms);
    var digestMethod :- RequiredChild(b, Hash.DigestMethod, DecodeDsigDigestMethod);
    var digestValue :- RequiredChild(b, Hash.DigestValue, DecodeDsigDigestValue);
    Ok(Hash(transforms, digestMethod, digestValue))
  }

  function DecodeDsigTransforms(b: Body): (r: Decoded<DsigTransforms>)
    ensures Absent(b, DsigTransforms.Transform) ==> r.Err?
    ensures r.Ok? ==> GivesChild(b, DsigTransforms.Transform, DecodeDsigTransform, r.value.dsigTransform)
  {
    var transform :- RequiredChild(b, DsigTransforms.Transform, DecodeDsigTransform);
    Ok(DsigTransforms(transform))
  }

  function DecodeDsigTransform(b: Body): (r: Decoded<DsigTransform>)
    ensures Absent(b, DsigTransform.Algorithm) ==> r.Err?
    ensures r.Ok? ==> Gives(b, DsigTransform.Algorithm, r.value.algorithm)
  {
    var algorithm :- RequiredText(b, DsigTransform.Algorithm);
    Ok(DsigTransform(algorithm))
  }

  function DecodeDsigDigestMethod(b: Body): (r: Decoded<DsigDigestMethod>)
    ensures Absent(b, DsigDigestMethod.Algorithm) ==> r.Err?
    ensures r.Ok? ==> Gives(b, DsigDigestMethod.Algorithm, r.value.algorithm)
  {
    var algorithm :- RequiredText(b, DsigDigestMethod.Algorithm);
    Ok(DsigDigestMethod(algorithm))
  }

  /** The digest is the element's character data; an element with none lacks its `$value` field. */
  function DecodeDsigDigestValue(b: Body): (r: Decoded<DsigDigestValue>)
    ensures r.Ok? <==> b.text != []
    ensures r.Ok? ==> r.value.value == b.text
  {
    if b.text == [] then Err(MissingField("$value")) else Ok(DsigDigestValue(b.text))
  }
}
