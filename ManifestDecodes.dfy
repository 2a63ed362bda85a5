/**
  The success half of decoding clickonce/src/deploymentmanifest.rs: an
  element that gives every field of a struct a well-formed value, once and
  under one of its spellings, decodes to exactly the struct of those values.
  An optional field may be absent, which gives None or its declared default;
  a list field needs at least one value. With each decoder's own contract,
  which says that a successful decode read every field from the element,
  this makes decoding an if-and-only-if between elements and values.
*/
module ManifestDecodes {
  import opened Wrappers
  import opened Xml
  import opened Fields
  import opened Primitives
  import opened ClickOnce

  /** A complete assembly decodes to the `Assembly` of the values given. */
  lemma AssemblyDecodes(b: Body, manifestVersion: string, assemblyIdentity: AssemblyIdentity, description: Description, deployment: Option<Deployment>, compatibleFrameworks: CompatibleFrameworks, dependency: seq<Dependency>)
    requires Gives(b, Assembly.ManifestVersion, manifestVersion)
    requires GivesChild(b, Assembly.AssemblyIdentity, DecodeAssemblyIdentity, assemblyIdentity)
    requires GivesChild(b, Assembly.Description, DecodeDescription, description)
    requires GivesChildOption(b, Assembly.Deployment, DecodeDeployment, deployment)
    requires GivesChild(b, Assembly.CompatibleFrameworks, DecodeCompatibleFrameworks, compatibleFrameworks)
    requires dependency != [] && GivesList(b, Assembly.Dependency, DecodeDependency, dependency)
    ensures DecodeAssembly(b) == Ok(Assembly(manifestVersion, assemblyIdentity, description, deployment, compatibleFrameworks, dependency))
  {
    GivenText(b, Assembly.ManifestVersion, manifestVersion, manifestVersion);
    GivenChild(b, Assembly.AssemblyIdentity, DecodeAssemblyIdentity, assemblyIdentity);
    GivenChild(b, Assembly.Description, DecodeDescription, description);
    GivenChildOption(b, Assembly.Deployment, DecodeDeployment, deployment);
    GivenChild(b, Assembly.CompatibleFrameworks, DecodeCompatibleFrameworks, compatibleFrameworks);
    GivenList(b, Assembly.Dependency, DecodeDependency, dependency);
  }

  /** An identity with its four required attributes decodes to the `AssemblyIdentity` of the values given. */
  lemma AssemblyIdentityDecodes(b: Body, name: string, version: string, publicKeyToken: string, processorArchitecture: ProcessorArchitecture, assemblyType: Option<string>)
    requires Gives(b, AssemblyIdentity.Name, name)
    requires Gives(b, AssemblyIdentity.Version, version)
    requires Gives(b, AssemblyIdentity.PublicKeyToken, publicKeyToken)
    requires GivesParsed(b, AssemblyIdentity.ProcessorArchitecture, ParseProcessorArchitecture, processorArchitecture)
    requires GivesOption(b, AssemblyIdentity.Type, assemblyType)
    ensures DecodeAssemblyIdentity(b) == Ok(AssemblyIdentity(name, version, publicKeyToken, processorArchitecture, assemblyType.GetOr(DefaultWin32())))
  {
    GivenText(b, AssemblyIdentity.Name, name, name);
    GivenText(b, AssemblyIdentity.Version, version, version);
    GivenText(b, AssemblyIdentity.PublicKeyToken, publicKeyToken, publicKeyToken);
    GivenParsed(b, AssemblyIdentity.ProcessorArchitecture, ParseProcessorArchitecture, processorArchitecture, processorArchitecture);
    GivenTextOption(b, AssemblyIdentity.Type, assemblyType, DefaultWin32());
  }

  /** A description with a publisher and a product decodes to the `Description` of the values given. */
  lemma DescriptionDecodes(b: Body, publisher: string, product: string, suiteName: Option<string>, supportUrl: Option<string>)
    requires Gives(b, Description.Publisher, publisher)
    requires Gives(b, Description.Product, product)
    requires GivesOption(b, Description.SuiteName, suiteName)
    requires GivesOption(b, Description.SupportUrl, supportUrl)
    ensures DecodeDescription(b) == Ok(Description(publisher, product, suiteName, supportUrl))
  {
    GivenText(b, Description.Publisher, publisher, publisher);
    GivenText(b, Description.Product, product, product);
    GivenTextOption(b, Description.SuiteName, suiteName, "");
    GivenTextOption(b, Description.SupportUrl, supportUrl, "");
  }

  /** A deployment with `install` and a subscription decodes to the `Deployment` of the values given. */
  lemma DeploymentDecodes(b: Body, install: bool, minimumRequiredVersion: Option<string>, mapFileExtensions: Option<bool>, disallowUrlActivation: Option<bool>, trustUrlParameters: Option<bool>, subscription: Subscription, deploymentProvider: Option<DeploymentProvider>)
    requires GivesParsed(b, Deployment.Install, ParseBool, install)
    requires GivesOption(b, Deployment.MinimumRequiredVersion, minimumRequiredVersion)
    requires GivesParsedOption(b, Deployment.MapFileExtensions, ParseBool, mapFileExtensions)
    requires GivesParsedOption(b, Deployment.DisallowUrlActivation, ParseBool, disallowUrlActivation)
    requires GivesParsedOption(b, Deployment.TrustUrlParameters, ParseBool, trustUrlParameters)
    requires GivesChild(b, Deployment.Subscription, DecodeSubscription, subscription)
    requires GivesChildOption(b, Deployment.DeploymentProvider, DecodeDeploymentProvider, deploymentProvider)
    ensures DecodeDeployment(b) == Ok(Deployment(install, minimumRequiredVersion, mapFileExtensions.GetOr(DefaultFalse()), disallowUrlActivation.GetOr(DefaultFalse()), trustUrlParameters.GetOr(DefaultFalse()), subscription, deploymentProvider))
  {
    GivenParsed(b, Deployment.Install, ParseBool, install, install);
    GivenTextOption(b, Deployment.MinimumRequiredVersion, minimumRequiredVersion, "");
    GivenParsedOption(b, Deployment.MapFileExtensions, ParseBool, mapFileExtensions, DefaultFalse());
    GivenParsedOption(b, Deployment.DisallowUrlActivation, ParseBool, disallowUrlActivation, DefaultFalse());
    GivenParsedOption(b, Deployment.TrustUrlParameters, ParseBool, trustUrlParameters, DefaultFalse());
    GivenChild(b, Deployment.Subscription, DecodeSubscription, subscription);
    GivenChildOption(b, Deployment.DeploymentProvider, DecodeDeploymentProvider, deploymentProvider);
  }

  /** A subscription with a decodable `update` decodes to the `Subscription` of the values given. */
  lemma SubscriptionDecodes(b: Body, update: Update)
    requires GivesChild(b, Subscription.Update, DecodeUpdate, update)
    ensures DecodeSubscription(b) == Ok(Subscription(update))
  {
    GivenChild(b, Subscription.Update, DecodeUpdate, update);
  }

  /** An expiration with its age and unit decodes to the `Expiration` of the values given. */
  lemma ExpirationDecodes(b: Body, maximumAge: string, unit: string)
    requires Gives(b, Expiration.MaximumAge, maximumAge)
    requires Gives(b, Expiration.Unit, unit)
    ensures DecodeExpiration(b) == Ok(Expiration.Expiration(maximumAge, unit))
  {
    GivenText(b, Expiration.MaximumAge, maximumAge, maximumAge);
    GivenText(b, Expiration.Unit, unit, unit);
  }

  /** A deployment provider with a codebase decodes to the `DeploymentProvider` of the values given. */
  lemma DeploymentProviderDecodes(b: Body, codebase: string)
    requires Gives(b, DeploymentProvider.Codebase, codebase)
    ensures DecodeDeploymentProvider(b) == Ok(DeploymentProvider(codebase))
  {
    GivenText(b, DeploymentProvider.Codebase, codebase, codebase);
  }

  /** A framework list with at least one decodable framework decodes to the `CompatibleFrameworks` of the values given. */
  lemma CompatibleFrameworksDecodes(b: Body, supportUrl: Option<string>, frameworks: seq<Framework>)
    requires GivesOption(b, CompatibleFrameworks.SupportUrl, supportUrl)
    requires frameworks != [] && GivesList(b, CompatibleFrameworks.Frameworks, DecodeFramework, frameworks)
    ensures DecodeCompatibleFrameworks(b) == Ok(CompatibleFrameworks(supportUrl, frameworks))
  {
    GivenTextOption(b, CompatibleFrameworks.SupportUrl, supportUrl, "");
    GivenList(b, CompatibleFrameworks.Frameworks, DecodeFramework, frameworks);
  }

  /** A framework with its three attributes decodes to the `Framework` of the values given. */
  lemma FrameworkDecodes(b: Body, targetVersion: string, profile: string, supportedRuntime: string)
    requires Gives(b, Framework.TargetVersion, targetVersion)
    requires Gives(b, Framework.Profile, profile)
    requires Gives(b, Framework.SupportedRuntime, supportedRuntime)
    ensures DecodeFramework(b) == Ok(Framework(targetVersion, profile, supportedRuntime))
  {
    GivenText(b, Framework.TargetVersion, targetVersion, targetVersion);
    GivenText(b, Framework.Profile, profile, profile);
    GivenText(b, Framework.SupportedRuntime, supportedRuntime, supportedRuntime);
  }

  /** A dependency with a decodable dependent assembly decodes to the `Dependency` of the values given. */
  lemma DependencyDecodes(b: Body, dependentAssembly: DependentAssembly)
    requires GivesChild(b, Dependency.DependentAssembly, DecodeDependentAssembly, dependentAssembly)
    ensures DecodeDependency(b) == Ok(Dependency(dependentAssembly))
  {
    GivenChild(b, Dependency.DependentAssembly, DecodeDependentAssembly, dependentAssembly);
  }

  /** A dependent assembly with its type, size and identity decodes to the `DependentAssembly` of the values given. */
  lemma DependentAssemblyDecodes(b: Body, prerequisite: Option<bool>, visible: Option<string>, dependencyType: DependencyType, codebase: Option<string>, size: uint32, assemblyIdentity: AssemblyIdentity, hash: Option<Hash>)
    requires GivesParsedOption(b, DependentAssembly.Prerequisite, ParseBool, prerequisite)
    requires GivesOption(b, DependentAssembly.Visible, visible)
    requires GivesParsed(b, DependentAssembly.DependencyType, ParseDependencyType, dependencyType)
    requires GivesOption(b, DependentAssembly.Codebase, codebase)
    requires GivesParsed(b, DependentAssembly.Size, ParseU32, size)
    requires GivesChild(b, DependentAssembly.AssemblyIdentity, DecodeAssemblyIdentity, assemblyIdentity)
    requires GivesChildOption(b, DependentAssembly.Hash, DecodeHash, hash)
    ensures DecodeDependentAssembly(b) == Ok(DependentAssembly(prerequisite, visible, dependencyType, codebase, size, assemblyIdentity, hash))
  {
    GivenParsedOption(b, DependentAssembly.Prerequisite, ParseBool, prerequisite, false);
    GivenTextOption(b, DependentAssembly.Visible, visible, "");
    GivenParsed(b, DependentAssembly.DependencyType, ParseDependencyType, dependencyType, dependencyType);
    GivenTextOption(b, DependentAssembly.Codebase, codebase, "");
    GivenParsed(b, DependentAssembly.Size, ParseU32, size, size);
    GivenChild(b, DependentAssembly.AssemblyIdentity, DecodeAssemblyIdentity, assemblyIdentity);
    GivenChildOption(b, DependentAssembly.Hash, DecodeHash, hash);
  }

  /** A hash with its transforms, digest method and digest value decodes to the `Hash` of the values given. */
  lemma HashDecodes(b: Body, dsigTransforms: DsigTransforms, dsigDigestMethod: DsigDigestMethod, dsigDigestValue: DsigDigestValue)
    requires GivesChild(b, Hash.Transforms, DecodeDsigTransforms, dsigTransforms)
    requires GivesChild(b, Hash.DigestMethod, DecodeDsigDigestMethod, dsigDigestMethod)
    requires GivesChild(b, Hash.DigestValue, DecodeDsigDigestValue, dsigDigestValue)
    ensures DecodeHash(b) == Ok(Hash(dsigTransforms, dsigDigestMethod, dsigDigestValue))
  {
    GivenChild(b, Hash.Transforms, DecodeDsigTransforms, dsigTransforms);
    GivenChild(b, Hash.DigestMethod, DecodeDsigDigestMethod, dsigDigestMethod);
    GivenChild(b, Hash.DigestValue, DecodeDsigDigestValue, dsigDigestValue);
  }

  /** A transform list with a decodable transform decodes to the `DsigTransforms` of the values given. */
  lemma DsigTransformsDecodes(b: Body, dsigTransform: DsigTransform)
    requires GivesChild(b, DsigTransforms.Transform, DecodeDsigTransform, dsigTransform)
    ensures DecodeDsigTransforms(b) == Ok(DsigTransforms(dsigTransform))
  {
    GivenChild(b, DsigTransforms.Transform, DecodeDsigTransform, dsigTransform);
  }

  /** A transform with its algorithm decodes to the `DsigTransform` of the values given. */
  lemma DsigTransformDecodes(b: Body, algorithm: string)
    requires Gives(b, DsigTransform.Algorithm, algorithm)
    ensures DecodeDsigTransform(b) == Ok(DsigTransform(algorithm))
  {
    GivenText(b, DsigTransform.Algorithm, algorithm, algorithm);
  }

  /** A digest method with its algorithm decodes to the `DsigDigestMethod` of the values given. */
  lemma DsigDigestMethodDecodes(b: Body, algorithm: string)
    requires Gives(b, DsigDigestMethod.Algorithm, algorithm)
    ensures DecodeDsigDigestMethod(b) == Ok(DsigDigestMethod(algorithm))
  {
    GivenText(b, DsigDigestMethod.Algorithm, algorithm, algorithm);
  }
}
