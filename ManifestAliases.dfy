/**
  What the declarations of clickonce/src/deploymentmanifest.rs promise about
  the names a document may use. Every struct decoder reads nothing of an
  element but the values its own fields are given, so a field reads the same
  under its snake_case name and under its declared alias, and a name that no
  field spells is ignored.
*/
module ManifestAliases {
  import opened Xml
  import opened Fields
  import opened Primitives
  import opened ClickOnce

  /** `Assembly` decodes alike from any two elements that give its six fields the same values. */
  lemma AssemblyIsLocal()
    ensures Local(DecodeAssembly, Assembly.Fields)
  {
    forall b, b2 | SameFields(b, b2, Assembly.Fields)
      ensures DecodeAssembly(b) == DecodeAssembly(b2)
    {
      AssemblyFieldsAgree(b, b2);
      AssemblyCongruent(b, b2);
    }
  }

  /** Elements that give the fields of `Assembly` the same values read each field alike. */
  lemma AssemblyFieldsAgree(b: Body, b2: Body)
    requires SameFields(b, b2, Assembly.Fields)
    ensures RequiredText(b, Assembly.ManifestVersion) == RequiredText(b2, Assembly.ManifestVersion)
    ensures RequiredChild(b, Assembly.AssemblyIdentity, DecodeAssemblyIdentity) == RequiredChild(b2, Assembly.AssemblyIdentity, DecodeAssemblyIdentity)
    ensures RequiredChild(b, Assembly.Description, DecodeDescription) == RequiredChild(b2, Assembly.Description, DecodeDescription)
    ensures OptionalChild(b, Assembly.Deployment, DecodeDeployment) == OptionalChild(b2, Assembly.Deployment, DecodeDeployment)
    ensures RequiredChild(b, Assembly.CompatibleFrameworks, DecodeCompatibleFrameworks) == RequiredChild(b2, Assembly.CompatibleFrameworks, DecodeCompatibleFrameworks)
    ensures Children(b, Assembly.Dependency, DecodeDependency) == Children(b2, Assembly.Dependency, DecodeDependency)
  {
    assert Assembly.ManifestVersion in Assembly.Fields;
    assert Assembly.AssemblyIdentity in Assembly.Fields;
    assert Assembly.Description in Assembly.Fields;
    assert Assembly.Deployment in Assembly.Fields;
    assert Assembly.CompatibleFrameworks in Assembly.Fields;
    assert Assembly.Dependency in Assembly.Fields;
    SameValuesSameText(b, b2, Assembly.ManifestVersion);
    SameValuesSameChild(b, b2, Assembly.AssemblyIdentity, DecodeAssemblyIdentity);
    SameValuesSameChild(b, b2, Assembly.Description, DecodeDescription);
    SameValuesSameChild(b, b2, Assembly.Deployment, DecodeDeployment);
    SameValuesSameChild(b, b2, Assembly.CompatibleFrameworks, DecodeCompatibleFrameworks);
    SameValuesSameChild(b, b2, Assembly.Dependency, DecodeDependency);
  }

  /** `DecodeAssembly` is a function of the field reads alone. */
  lemma AssemblyCongruent(b: Body, b2: Body)
    requires RequiredText(b, Assembly.ManifestVersion) == RequiredText(b2, Assembly.ManifestVersion)
    requires RequiredChild(b, Assembly.AssemblyIdentity, DecodeAssemblyIdentity) == RequiredChild(b2, Assembly.AssemblyIdentity, DecodeAssemblyIdentity)
    requires RequiredChild(b, Assembly.Description, DecodeDescription) == RequiredChild(b2, Assembly.Description, DecodeDescription)
    requires OptionalChild(b, Assembly.Deployment, DecodeDeployment) == OptionalChild(b2, Assembly.Deployment, DecodeDeployment)
    requires RequiredChild(b, Assembly.CompatibleFrameworks, DecodeCompatibleFrameworks) == RequiredChild(b2, Assembly.CompatibleFrameworks, DecodeCompatibleFrameworks)
    requires Children(b, Assembly.Dependency, DecodeDependency) == Children(b2, Assembly.Dependency, DecodeDependency)
    ensures DecodeAssembly(b) == DecodeAssembly(b2)
  {
  }

  /** `manifestVersion` reads as `manifest_version`. */
  lemma AssemblyManifestVersionAlias(b: Body)
    ensures DecodeAssembly(Rename(b, "manifestVersion", "manifest_version")) == DecodeAssembly(b)
  {
    AssemblyIsLocal();
    RenameAgrees(DecodeAssembly, Assembly.Fields, b, "manifestVersion", "manifest_version");
  }

  /** `assemblyIdentity` reads as `assembly_identity`. */
  lemma AssemblyAssemblyIdentityAlias(b: Body)
    ensures DecodeAssembly(Rename(b, "assemblyIdentity", "assembly_identity")) == DecodeAssembly(b)
  {
    AssemblyIsLocal();
    RenameAgrees(DecodeAssembly, Assembly.Fields, b, "assemblyIdentity", "assembly_identity");
  }

  /** `compatibleFrameworks` reads as `compatible_frameworks`. */
  lemma AssemblyCompatibleFrameworksAlias(b: Body)
    ensures DecodeAssembly(Rename(b, "compatibleFrameworks", "compatible_frameworks")) == DecodeAssembly(b)
  {
    AssemblyIsLocal();
    RenameAgrees(DecodeAssembly, Assembly.Fields, b, "compatibleFrameworks", "compatible_frameworks");
  }

  /** `AssemblyIdentity` decodes alike from any two elements that give its five fields the same values. */
  lemma AssemblyIdentityIsLocal()
    ensures Local(DecodeAssemblyIdentity, AssemblyIdentity.Fields)
  {
    forall b, b2 | SameFields(b, b2, AssemblyIdentity.Fields)
      ensures DecodeAssemblyIdentity(b) == DecodeAssemblyIdentity(b2)
    {
      AssemblyIdentityFieldsAgree(b, b2);
      AssemblyIdentityCongruent(b, b2);
    }
  }

  /** Elements that give the fields of `AssemblyIdentity` the same values read each field alike. */
  lemma AssemblyIdentityFieldsAgree(b: Body, b2: Body)
    requires SameFields(b, b2, AssemblyIdentity.Fields)
    ensures RequiredText(b, AssemblyIdentity.Name) == RequiredText(b2, AssemblyIdentity.Name)
    ensures RequiredText(b, AssemblyIdentity.Version) == RequiredText(b2, AssemblyIdentity.Version)
    ensures RequiredText(b, AssemblyIdentity.PublicKeyToken) == RequiredText(b2, AssemblyIdentity.PublicKeyToken)
    ensures RequiredParsed(b, AssemblyIdentity.ProcessorArchitecture, ParseProcessorArchitecture) == RequiredParsed(b2, AssemblyIdentity.ProcessorArchitecture, ParseProcessorArchitecture)
    ensures TextOr(b, AssemblyIdentity.Type, DefaultWin32()) == TextOr(b2, AssemblyIdentity.Type, DefaultWin32())
  {
    assert AssemblyIdentity.Name in AssemblyIdentity.Fields;
    assert AssemblyIdentity.Version in AssemblyIdentity.Fields;
    assert AssemblyIdentity.PublicKeyToken in AssemblyIdentity.Fields;
    assert AssemblyIdentity.ProcessorArchitecture in AssemblyIdentity.Fields;
    assert AssemblyIdentity.Type in AssemblyIdentity.Fields;
    SameValuesSameText(b, b2, AssemblyIdentity.Name);
    SameValuesSameText(b, b2, AssemblyIdentity.Version);
    SameValuesSameText(b, b2, AssemblyIdentity.PublicKeyToken);
    SameValuesSameParsed(b, b2, AssemblyIdentity.ProcessorArchitecture, ParseProcessorArchitecture);
    SameValuesSameText(b, b2, AssemblyIdentity.Type);
  }

  /** `DecodeAssemblyIdentity` is a function of the field reads alone. */
  lemma AssemblyIdentityCongruent(b: Body, b2: Body)
    requires RequiredText(b, AssemblyIdentity.Name) == RequiredText(b2, AssemblyIdentity.Name)
    requires RequiredText(b, AssemblyIdentity.Version) == RequiredText(b2, AssemblyIdentity.Version)
    requires RequiredText(b, AssemblyIdentity.PublicKeyToken) == RequiredText(b2, AssemblyIdentity.PublicKeyToken)
    requires RequiredParsed(b, AssemblyIdentity.ProcessorArchitecture, ParseProcessorArchitecture) == RequiredParsed(b2, AssemblyIdentity.ProcessorArchitecture, ParseProcessorArchitecture)
    requires TextOr(b, AssemblyIdentity.Type, DefaultWin32()) == TextOr(b2, AssemblyIdentity.Type, DefaultWin32())
    ensures DecodeAssemblyIdentity(b) == DecodeAssemblyIdentity(b2)
  {
  }

  /** `publicKeyToken` reads as `public_key_token`. */
  lemma AssemblyIdentityPublicKeyTokenAlias(b: Body)
    ensures DecodeAssemblyIdentity(Rename(b, "publicKeyToken", "public_key_token")) == DecodeAssemblyIdentity(b)
  {
    AssemblyIdentityIsLocal();
    RenameAgrees(DecodeAssemblyIdentity, AssemblyIdentity.Fields, b, "publicKeyToken", "public_key_token");
  }

  /** `processorArchitecture` reads as `processor_architecture`. */
  lemma AssemblyIdentityProcessorArchitectureAlias(b: Body)
    ensures DecodeAssemblyIdentity(Rename(b, "processorArchitecture", "processor_architecture")) == DecodeAssemblyIdentity(b)
  {
    AssemblyIdentityIsLocal();
    RenameAgrees(DecodeAssemblyIdentity, AssemblyIdentity.Fields, b, "processorArchitecture", "processor_architecture");
  }

  /** `Description` decodes alike from any two elements that give its four fields the same values. */
  lemma DescriptionIsLocal()
    ensures Local(DecodeDescription, Description.Fields)
  {
    forall b, b2 | SameFields(b, b2, Description.Fields)
      ensures DecodeDescription(b) == DecodeDescription(b2)
    {
      DescriptionFieldsAgree(b, b2);
      DescriptionCongruent(b, b2);
    }
  }

  /** Elements that give the fields of `Description` the same values read each field alike. */
  lemma DescriptionFieldsAgree(b: Body, b2: Body)
    requires SameFields(b, b2, Description.Fields)
    ensures RequiredText(b, Description.Publisher) == RequiredText(b2, Description.Publisher)
    ensures RequiredText(b, Description.Product) == RequiredText(b2, Description.Product)
    ensures FieldText(b, Description.SuiteName) == FieldText(b2, Description.SuiteName)
    ensures FieldText(b, Description.SupportUrl) == FieldText(b2, Description.SupportUrl)
  {
    assert Description.Publisher in Description.Fields;
    assert Description.Product in Description.Fields;
    assert Description.SuiteName in Description.Fields;
    assert Description.SupportUrl in Description.Fields;
    SameValuesSameText(b, b2, Description.Publisher);
    SameValuesSameText(b, b2, Description.Product);
    SameValuesSameText(b, b2, Description.SuiteName);
    SameValuesSameText(b, b2, Description.SupportUrl);
  }

  /** `DecodeDescription` is a function of the field reads alone. */
  lemma DescriptionCongruent(b: Body, b2: Body)
    requires RequiredText(b, Description.Publisher) == RequiredText(b2, Description.Publisher)
    requires RequiredText(b, Description.Product) == RequiredText(b2, Description.Product)
    requires FieldText(b, Description.SuiteName) == FieldText(b2, Description.SuiteName)
    requires FieldText(b, Description.SupportUrl) == FieldText(b2, Description.SupportUrl)
    ensures DecodeDescription(b) == DecodeDescription(b2)
  {
  }

  /** `suiteName` reads as `suite_name`. */
  lemma DescriptionSuiteNameAlias(b: Body)
    ensures DecodeDescription(Rename(b, "suiteName", "suite_name")) == DecodeDescription(b)
  {
    DescriptionIsLocal();
    RenameAgrees(DecodeDescription, Description.Fields, b, "suiteName", "suite_name");
  }

  /** `supportUrl` reads as `support_url`. */
  lemma DescriptionSupportUrlAlias(b: Body)
    ensures DecodeDescription(Rename(b, "supportUrl", "support_url")) == DecodeDescription(b)
  {
    DescriptionIsLocal();
    RenameAgrees(DecodeDescription, Description.Fields, b, "supportUrl", "support_url");
  }

  /** `Deployment` decodes alike from any two elements that give its seven fields the same values. */
  lemma DeploymentIsLocal()
    ensures Local(DecodeDeployment, Deployment.Fields)
  {
    forall b, b2 | SameFields(b, b2, Deployment.Fields)
      ensures DecodeDeployment(b) == DecodeDeployment(b2)
    {
      DeploymentFieldsAgree(b, b2);
      DeploymentCongruent(b, b2);
    }
  }

  /** Elements that give the fields of `Deployment` the same values read each field alike. */
  lemma DeploymentFieldsAgree(b: Body, b2: Body)
    requires SameFields(b, b2, Deployment.Fields)
    ensures RequiredParsed(b, Deployment.Install, ParseBool) == RequiredParsed(b2, Deployment.Install, ParseBool)
    ensures FieldText(b, Deployment.MinimumRequiredVersion) == FieldText(b2, Deployment.MinimumRequiredVersion)
    ensures ParsedOr(b, Deployment.MapFileExtensions, ParseBool, DefaultFalse()) == ParsedOr(b2, Deployment.MapFileExtensions, ParseBool, DefaultFalse())
    ensures ParsedOr(b, Deployment.DisallowUrlActivation, ParseBool, DefaultFalse()) == ParsedOr(b2, Deployment.DisallowUrlActivation, ParseBool, DefaultFalse())
    ensures ParsedOr(b, Deployment.TrustUrlParameters, ParseBool, DefaultFalse()) == ParsedOr(b2, Deployment.TrustUrlParameters, ParseBool, DefaultFalse())
    ensures RequiredChild(b, Deployment.Subscription, DecodeSubscription) == RequiredChild(b2, Deployment.Subscription, DecodeSubscription)
    ensures OptionalChild(b, Deployment.DeploymentProvider, DecodeDeploymentProvider) == OptionalChild(b2, Deployment.DeploymentProvider, DecodeDeploymentProvider)
  {
    assert Deployment.Install in Deployment.Fields;
    assert Deployment.MinimumRequiredVersion in Deployment.Fields;
    assert Deployment.MapFileExtensions in Deployment.Fields;
    assert Deployment.DisallowUrlActivation in Deployment.Fields;
    assert Deployment.TrustUrlParameters in Deployment.Fields;
    assert Deployment.Subscription in Deployment.Fields;
    assert Deployment.DeploymentProvider in Deployment.Fields;
    SameValuesSameParsed(b, b2, Deployment.Install, ParseBool);
    SameValuesSameText(b, b2, Deployment.MinimumRequiredVersion);
    SameValuesSameParsed(b, b2, Deployment.MapFileExtensions, ParseBool);
    SameValuesSameParsed(b, b2, Deployment.DisallowUrlActivation, ParseBool);
    SameValuesSameParsed(b, b2, Deployment.TrustUrlParameters, ParseBool);
    SameValuesSameChild(b, b2, Deployment.Subscription, DecodeSubscription);
    SameValuesSameChild(b, b2, Deployment.DeploymentProvider, DecodeDeploymentProvider);
  }

  /** `DecodeDeployment` is a function of the field reads alone. */
  lemma DeploymentCongruent(b: Body, b2: Body)
    requires RequiredParsed(b, Deployment.Install, ParseBool) == RequiredParsed(b2, Deployment.Install, ParseBool)
    requires FieldText(b, Deployment.MinimumRequiredVersion) == FieldText(b2, Deployment.MinimumRequiredVersion)
    requires ParsedOr(b, Deployment.MapFileExtensions, ParseBool, DefaultFalse()) == ParsedOr(b2, Deployment.MapFileExtensions, ParseBool, DefaultFalse())
    requires ParsedOr(b, Deployment.DisallowUrlActivation, ParseBool, DefaultFalse()) == ParsedOr(b2, Deployment.DisallowUrlActivation, ParseBool, DefaultFalse())
    requires ParsedOr(b, Deployment.TrustUrlParameters, ParseBool, DefaultFalse()) == ParsedOr(b2, Deployment.TrustUrlParameters, ParseBool, DefaultFalse())
    requires RequiredChild(b, Deployment.Subscription, DecodeSubscription) == RequiredChild(b2, Deployment.Subscription, DecodeSubscription)
    requires OptionalChild(b, Deployment.DeploymentProvider, DecodeDeploymentProvider) == OptionalChild(b2, Deployment.DeploymentProvider, DecodeDeploymentProvider)
    ensures DecodeDeployment(b) == DecodeDeployment(b2)
  {
  }

  /** `minimumRequiredVersion` reads as `minimum_required_version`. */
  lemma DeploymentMinimumRequiredVersionAlias(b: Body)
    ensures DecodeDeployment(Rename(b, "minimumRequiredVersion", "minimum_required_version")) == DecodeDeployment(b)
  {
    DeploymentIsLocal();
    RenameAgrees(DecodeDeployment, Deployment.Fields, b, "minimumRequiredVersion", "minimum_required_version");
  }

  /** `mapFileExtensions` reads as `map_file_extensions`. */
  lemma DeploymentMapFileExtensionsAlias(b: Body)
    ensures DecodeDeployment(Rename(b, "mapFileExtensions", "map_file_extensions")) == DecodeDeployment(b)
  {
    DeploymentIsLocal();
    RenameAgrees(DecodeDeployment, Deployment.Fields, b, "mapFileExtensions", "map_file_extensions");
  }

  /** `disallowUrlActivation` reads as `disallow_url_activation`. */
  lemma DeploymentDisallowUrlActivationAlias(b: Body)
    ensures DecodeDeployment(Rename(b, "disallowUrlActivation", "disallow_url_activation")) == DecodeDeployment(b)
  {
    DeploymentIsLocal();
    RenameAgrees(DecodeDeployment, Deployment.Fields, b, "disallowUrlActivation", "disallow_url_activation");
  }

  /** `trustURLParameters` reads as `trust_url_parameters`. */
  lemma DeploymentTrustURLParametersAlias(b: Body)
    ensures DecodeDeployment(Rename(b, "trustURLParameters", "trust_url_parameters")) == DecodeDeployment(b)
  {
    DeploymentIsLocal();
    RenameAgrees(DecodeDeployment, Deployment.Fields, b, "trustURLParameters", "trust_url_parameters");
  }

  /** `deploymentProvider` reads as `deployment_provider`. */
  lemma DeploymentDeploymentProviderAlias(b: Body)
    ensures DecodeDeployment(Rename(b, "deploymentProvider", "deployment_provider")) == DecodeDeployment(b)
  {
    DeploymentIsLocal();
    RenameAgrees(DecodeDeployment, Deployment.Fields, b, "deploymentProvider", "deployment_provider");
  }

  /** `Expiration` decodes alike from any two elements that give its two fields the same values. */
  lemma ExpirationIsLocal()
    ensures Local(DecodeExpiration, Expiration.Fields)
  {
    forall b, b2 | SameFields(b, b2, Expiration.Fields)
      ensures DecodeExpiration(b) == DecodeExpiration(b2)
    {
      assert Expiration.MaximumAge in Expiration.Fields;
      assert Expiration.Unit in Expiration.Fields;
      SameValuesSameText(b, b2, Expiration.MaximumAge);
      SameValuesSameText(b, b2, Expiration.Unit);
    }
  }

  /** `maximumAge` reads as `maximum_age`. */
  lemma ExpirationMaximumAgeAlias(b: Body)
    ensures DecodeExpiration(Rename(b, "maximumAge", "maximum_age")) == DecodeExpiration(b)
  {
    ExpirationIsLocal();
    RenameAgrees(DecodeExpiration, Expiration.Fields, b, "maximumAge", "maximum_age");
  }

  /** `CompatibleFrameworks` decodes alike from any two elements that give its two fields the same values. */
  lemma CompatibleFrameworksIsLocal()
    ensures Local(DecodeCompatibleFrameworks, CompatibleFrameworks.Fields)
  {
    forall b, b2 | SameFields(b, b2, CompatibleFrameworks.Fields)
      ensures DecodeCompatibleFrameworks(b) == DecodeCompatibleFrameworks(b2)
    {
      assert CompatibleFrameworks.SupportUrl in CompatibleFrameworks.Fields;
      assert CompatibleFrameworks.Frameworks in CompatibleFrameworks.Fields;
      SameValuesSameText(b, b2, CompatibleFrameworks.SupportUrl);
      SameValuesSameChild(b, b2, CompatibleFrameworks.Frameworks, DecodeFramework);
    }
  }

  /** `framework` reads as `frameworks`. */
  lemma CompatibleFrameworksFrameworkAlias(b: Body)
    ensures DecodeCompatibleFrameworks(Rename(b, "framework", "frameworks")) == DecodeCompatibleFrameworks(b)
  {
    CompatibleFrameworksIsLocal();
    RenameAgrees(DecodeCompatibleFrameworks, CompatibleFrameworks.Fields, b, "framework", "frameworks");
  }

  /** `Framework` decodes alike from any two elements that give its three fields the same values. */
  lemma FrameworkIsLocal()
    ensures Local(DecodeFramework, Framework.Fields)
  {
    forall b, b2 | SameFields(b, b2, Framework.Fields)
      ensures DecodeFramework(b) == DecodeFramework(b2)
    {
      assert Framework.TargetVersion in Framework.Fields;
      assert Framework.Profile in Framework.Fields;
      assert Framework.SupportedRuntime in Framework.Fields;
      SameValuesSameText(b, b2, Framework.TargetVersion);
      SameValuesSameText(b, b2, Framework.Profile);
      SameValuesSameText(b, b2, Framework.SupportedRuntime);
    }
  }

  /** `targetVersion` reads as `target_version`. */
  lemma FrameworkTargetVersionAlias(b: Body)
    ensures DecodeFramework(Rename(b, "targetVersion", "target_version")) == DecodeFramework(b)
  {
    FrameworkIsLocal();
    RenameAgrees(DecodeFramework, Framework.Fields, b, "targetVersion", "target_version");
  }

  /** `supportedRuntime` reads as `supported_runtime`. */
  lemma FrameworkSupportedRuntimeAlias(b: Body)
    ensures DecodeFramework(Rename(b, "supportedRuntime", "supported_runtime")) == DecodeFramework(b)
  {
    FrameworkIsLocal();
    RenameAgrees(DecodeFramework, Framework.Fields, b, "supportedRuntime", "supported_runtime");
  }

  /** `Dependency` decodes alike from any two elements that give its field the same values. */
  lemma DependencyIsLocal()
    ensures Local(DecodeDependency, Dependency.Fields)
  {
    forall b, b2 | SameFields(b, b2, Dependency.Fields)
      ensures DecodeDependency(b) == DecodeDependency(b2)
    {
      assert Dependency.DependentAssembly in Dependency.Fields;
      SameValuesSameChild(b, b2, Dependency.DependentAssembly, DecodeDependentAssembly);
    }
  }

  /** `dependentAssembly` reads as `dependent_assembly`. */
  lemma DependencyDependentAssemblyAlias(b: Body)
    ensures DecodeDependency(Rename(b, "dependentAssembly", "dependent_assembly")) == DecodeDependency(b)
  {
    DependencyIsLocal();
    RenameAgrees(DecodeDependency, Dependency.Fields, b, "dependentAssembly", "dependent_assembly");
  }

  /** `DependentAssembly` decodes alike from any two elements that give its seven fields the same values. */
  lemma DependentAssemblyIsLocal()
    ensures Local(DecodeDependentAssembly, DependentAssembly.Fields)
  {
    forall b, b2 | SameFields(b, b2, DependentAssembly.Fields)
      ensures DecodeDependentAssembly(b) == DecodeDependentAssembly(b2)
    {
      DependentAssemblyFieldsAgree(b, b2);
      DependentAssemblyCongruent(b, b2);
    }
  }

  /** Elements that give the fields of `DependentAssembly` the same values read each field alike. */
  lemma DependentAssemblyFieldsAgree(b: Body, b2: Body)
    requires SameFields(b, b2, DependentAssembly.Fields)
    ensures OptionalParsed(b, DependentAssembly.Prerequisite, ParseBool) == OptionalParsed(b2, DependentAssembly.Prerequisite, ParseBool)
    ensures FieldText(b, DependentAssembly.Visible) == FieldText(b2, DependentAssembly.Visible)
    ensures RequiredParsed(b, DependentAssembly.DependencyType, ParseDependencyType) == RequiredParsed(b2, DependentAssembly.DependencyType, ParseDependencyType)
    ensures FieldText(b, DependentAssembly.Codebase) == FieldText(b2, DependentAssembly.Codebase)
    ensures RequiredParsed(b, DependentAssembly.Size, ParseU32) == RequiredParsed(b2, DependentAssembly.Size, ParseU32)
    ensures RequiredChild(b, DependentAssembly.AssemblyIdentity, DecodeAssemblyIdentity) == RequiredChild(b2, DependentAssembly.AssemblyIdentity, DecodeAssemblyIdentity)
    ensures OptionalChild(b, DependentAssembly.Hash, DecodeHash) == OptionalChild(b2, DependentAssembly.Hash, DecodeHash)
  {
    assert DependentAssembly.Prerequisite in DependentAssembly.Fields;
    assert DependentAssembly.Visible in DependentAssembly.Fields;
    assert DependentAssembly.DependencyType in DependentAssembly.Fields;
    assert DependentAssembly.Codebase in DependentAssembly.Fields;
    assert DependentAssembly.Size in DependentAssembly.Fields;
    assert DependentAssembly.AssemblyIdentity in DependentAssembly.Fields;
    assert DependentAssembly.Hash in DependentAssembly.Fields;
    SameValuesSameParsed(b, b2, DependentAssembly.Prerequisite, ParseBool);
    SameValuesSameText(b, b2, DependentAssembly.Visible);
    SameValuesSameParsed(b, b2, DependentAssembly.DependencyType, ParseDependencyType);
    SameValuesSameText(b, b2, DependentAssembly.Codebase);
    SameValuesSameParsed(b, b2, DependentAssembly.Size, ParseU32);
    SameValuesSameChild(b, b2, DependentAssembly.AssemblyIdentity, DecodeAssemblyIdentity);
    SameValuesSameChild(b, b2, DependentAssembly.Hash, DecodeHash);
  }

  /** `DecodeDependentAssembly` is a function of the field reads alone. */
  lemma DependentAssemblyCongruent(b: Body, b2: Body)
    requires OptionalParsed(b, DependentAssembly.Prerequisite, ParseBool) == OptionalParsed(b2, DependentAssembly.Prerequisite, ParseBool)
    requires FieldText(b, DependentAssembly.Visible) == FieldText(b2, DependentAssembly.Visible)
    requires RequiredParsed(b, DependentAssembly.DependencyType, ParseDependencyType) == RequiredParsed(b2, DependentAssembly.DependencyType, ParseDependencyType)
    requires FieldText(b, DependentAssembly.Codebase) == FieldText(b2, DependentAssembly.Codebase)
    requires RequiredParsed(b, DependentAssembly.Size, ParseU32) == RequiredParsed(b2, DependentAssembly.Size, ParseU32)
    requires RequiredChild(b, DependentAssembly.AssemblyIdentity, DecodeAssemblyIdentity) == RequiredChild(b2, DependentAssembly.AssemblyIdentity, DecodeAssemblyIdentity)
    requires OptionalChild(b, DependentAssembly.Hash, DecodeHash) == OptionalChild(b2, DependentAssembly.Hash, DecodeHash)
    ensures DecodeDependentAssembly(b) == DecodeDependentAssembly(b2)
  {
  }

  /** `preRequisite` reads as `prerequisite`. */
  lemma DependentAssemblyPreRequisiteAlias(b: Body)
    ensures DecodeDependentAssembly(Rename(b, "preRequisite", "prerequisite")) == DecodeDependentAssembly(b)
  {
    DependentAssemblyIsLocal();
    RenameAgrees(DecodeDependentAssembly, DependentAssembly.Fields, b, "preRequisite", "prerequisite");
  }

  /** `dependencyType` reads as `dependency_type`. */
  lemma DependentAssemblyDependencyTypeAlias(b: Body)
    ensures DecodeDependentAssembly(Rename(b, "dependencyType", "dependency_type")) == DecodeDependentAssembly(b)
  {
    DependentAssemblyIsLocal();
    RenameAgrees(DecodeDependentAssembly, DependentAssembly.Fields, b, "dependencyType", "dependency_type");
  }

  /** `assemblyIdentity` reads as `assembly_identity`. */
  lemma DependentAssemblyAssemblyIdentityAlias(b: Body)
    ensures DecodeDependentAssembly(Rename(b, "assemblyIdentity", "assembly_identity")) == DecodeDependentAssembly(b)
  {
    DependentAssemblyIsLocal();
    RenameAgrees(DecodeDependentAssembly, DependentAssembly.Fields, b, "assemblyIdentity", "assembly_identity");
  }

  /** `Hash` decodes alike from any two elements that give its three fields the same values. */
  lemma HashIsLocal()
    ensures Local(DecodeHash, Hash.Fields)
  {
    forall b, b2 | SameFields(b, b2, Hash.Fields)
      ensures DecodeHash(b) == DecodeHash(b2)
    {
      assert Hash.Transforms in Hash.Fields;
      assert Hash.DigestMethod in Hash.Fields;
      assert Hash.DigestValue in Hash.Fields;
      SameValuesSameChild(b, b2, Hash.Transforms, DecodeDsigTransforms);
      SameValuesSameChild(b, b2, Hash.DigestMethod, DecodeDsigDigestMethod);
      SameValuesSameChild(b, b2, Hash.DigestValue, DecodeDsigDigestValue);
    }
  }

  /** `Transforms` reads as `dsig_transforms`. */
  lemma HashTransformsAlias(b: Body)
    ensures DecodeHash(Rename(b, "Transforms", "dsig_transforms")) == DecodeHash(b)
  {
    HashIsLocal();
    RenameAgrees(DecodeHash, Hash.Fields, b, "Transforms", "dsig_transforms");
  }

  /** `DigestMethod` reads as `dsig_digest_method`. */
  lemma HashDigestMethodAlias(b: Body)
    ensures DecodeHash(Rename(b, "DigestMethod", "dsig_digest_method")) == DecodeHash(b)
  {
    HashIsLocal();
    RenameAgrees(DecodeHash, Hash.Fields, b, "DigestMethod", "dsig_digest_method");
  }

  /** `DigestValue` reads as `dsig_digest_value`. */
  lemma HashDigestValueAlias(b: Body)
    ensures DecodeHash(Rename(b, "DigestValue", "dsig_digest_value")) == DecodeHash(b)
  {
    HashIsLocal();
    RenameAgrees(DecodeHash, Hash.Fields, b, "DigestValue", "dsig_digest_value");
  }

  /** `DsigTransforms` decodes alike from any two elements that give its field the same values. */
  lemma DsigTransformsIsLocal()
    ensures Local(DecodeDsigTransforms, DsigTransforms.Fields)
  {
    forall b, b2 | SameFields(b, b2, DsigTransforms.Fields)
      ensures DecodeDsigTransforms(b) == DecodeDsigTransforms(b2)
    {
      assert DsigTransforms.Transform in DsigTransforms.Fields;
      SameValuesSameChild(b, b2, DsigTransforms.Transform, DecodeDsigTransform);
    }
  }

  /** `Transform` reads as `dsig_transform`. */
  lemma DsigTransformsTransformAlias(b: Body)
    ensures DecodeDsigTransforms(Rename(b, "Transform", "dsig_transform")) == DecodeDsigTransforms(b)
  {
    DsigTransformsIsLocal();
    RenameAgrees(DecodeDsigTransforms, DsigTransforms.Fields, b, "Transform", "dsig_transform");
  }

  /** `DsigTransform` decodes alike from any two elements that give its field the same values. */
  lemma DsigTransformIsLocal()
    ensures Local(DecodeDsigTransform, DsigTransform.Fields)
  {
    forall b, b2 | SameFields(b, b2, DsigTransform.Fields)
      ensures DecodeDsigTransform(b) == DecodeDsigTransform(b2)
    {
      assert DsigTransform.Algorithm in DsigTransform.Fields;
      SameValuesSameText(b, b2, DsigTransform.Algorithm);
    }
  }

  /** `Algorithm` reads as `algorithm`. */
  lemma DsigTransformAlgorithmAlias(b: Body)
    ensures DecodeDsigTransform(Rename(b, "Algorithm", "algorithm")) == DecodeDsigTransform(b)
  {
    DsigTransformIsLocal();
    RenameAgrees(DecodeDsigTransform, DsigTransform.Fields, b, "Algorithm", "algorithm");
  }

  /** `DsigDigestMethod` decodes alike from any two elements that give its field the same values. */
  lemma DsigDigestMethodIsLocal()
    ensures Local(DecodeDsigDigestMethod, DsigDigestMethod.Fields)
  {
    forall b, b2 | SameFields(b, b2, DsigDigestMethod.Fields)
      ensures DecodeDsigDigestMethod(b) == DecodeDsigDigestMethod(b2)
    {
      assert DsigDigestMethod.Algorithm in DsigDigestMethod.Fields;
      SameValuesSameText(b, b2, DsigDigestMethod.Algorithm);
    }
  }

  /** `Algorithm` reads as `algorithm`. */
  lemma DsigDigestMethodAlgorithmAlias(b: Body)
    ensures DecodeDsigDigestMethod(Rename(b, "Algorithm", "algorithm")) == DecodeDsigDigestMethod(b)
  {
    DsigDigestMethodIsLocal();
    RenameAgrees(DecodeDsigDigestMethod, DsigDigestMethod.Fields, b, "Algorithm", "algorithm");
  }
}
