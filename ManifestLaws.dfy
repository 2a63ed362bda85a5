/**
  What clickonce/src/deploymentmanifest.rs promises about a decoded manifest
  beyond the reading of single fields: a declared default stands for the
  field exactly when the field is absent, the enums are closed, `Update` is
  one variant chosen by name, list fields keep document order, names that no
  field spells are ignored, and a missing or broken required part fails the
  whole manifest rather than leaving a partial value.
*/
module ManifestLaws {
  import opened Wrappers
  import opened Xml
  import opened Fields
  import opened Primitives
  import opened ClickOnce
  import opened ManifestAliases

  // ---------------------------------------------------------------------------
  // Defaults: `default_win32` and `default_false` apply only when the field is absent.

  /**
    Writing a `type` where none was given decodes as that type, never the
    default, and leaves the rest of the identity as it was.
  */
  lemma IdentityTypeGiven(b: Body, s: string)
    requires Absent(b, AssemblyIdentity.Type)
    ensures DecodeAssemblyIdentity(AddAttribute(b, "type", s)).Ok? <==> DecodeAssemblyIdentity(b).Ok?
    ensures DecodeAssemblyIdentity(b).Ok? ==>
              DecodeAssemblyIdentity(AddAttribute(b, "type", s))
              == Ok(DecodeAssemblyIdentity(b).value.(assemblyType := s))
    ensures DecodeAssemblyIdentity(b).Err? ==> DecodeAssemblyIdentity(AddAttribute(b, "type", s)) == DecodeAssemblyIdentity(b)
  {
    IdentityTypeElsewhere(b, s);
    AddAttributeToAbsent(b, AssemblyIdentity.Type, "type", s);
    IdentityAlike(b, AddAttribute(b, "type", s), s);
  }

  /** Adding a `type` changes the reading of no other field of `AssemblyIdentity`. */
  lemma IdentityTypeElsewhere(b: Body, s: string)
    requires Absent(b, AssemblyIdentity.Type)
    ensures var b2 := AddAttribute(b, "type", s);
            && RequiredText(b2, AssemblyIdentity.Name) == RequiredText(b, AssemblyIdentity.Name)
            && RequiredText(b2, AssemblyIdentity.Version) == RequiredText(b, AssemblyIdentity.Version)
            && RequiredText(b2, AssemblyIdentity.PublicKeyToken) == RequiredText(b, AssemblyIdentity.PublicKeyToken)
            && RequiredParsed(b2, AssemblyIdentity.ProcessorArchitecture, ParseProcessorArchitecture)
               == RequiredParsed(b, AssemblyIdentity.ProcessorArchitecture, ParseProcessorArchitecture)
  {
    var b2 := AddAttribute(b, "type", s);
    var others := [AssemblyIdentity.Name, AssemblyIdentity.Version, AssemblyIdentity.PublicKeyToken,
                   AssemblyIdentity.ProcessorArchitecture];
    AddAttributeSameFields(b, "type", s, others);
    assert others[0] in others && others[1] in others && others[2] in others && others[3] in others;
    SameValuesSameText(b2, b, AssemblyIdentity.Name);
    SameValuesSameText(b2, b, AssemblyIdentity.Version);
    SameValuesSameText(b2, b, AssemblyIdentity.PublicKeyToken);
    SameValuesSameParsed(b2, b, AssemblyIdentity.ProcessorArchitecture, ParseProcessorArchitecture);
  }

  /** Two identities that differ only in `type`, absent from the first, decode alike but for it. */
  lemma IdentityAlike(b: Body, b2: Body, s: string)
    requires RequiredText(b2, AssemblyIdentity.Name) == RequiredText(b, AssemblyIdentity.Name)
    requires RequiredText(b2, AssemblyIdentity.Version) == RequiredText(b, AssemblyIdentity.Version)
    requires RequiredText(b2, AssemblyIdentity.PublicKeyToken) == RequiredText(b, AssemblyIdentity.PublicKeyToken)
    requires RequiredParsed(b2, AssemblyIdentity.ProcessorArchitecture, ParseProcessorArchitecture)
          == RequiredParsed(b, AssemblyIdentity.ProcessorArchitecture, ParseProcessorArchitecture)
    requires Absent(b, AssemblyIdentity.Type)
    requires Gives(b2, AssemblyIdentity.Type, s)
    ensures DecodeAssemblyIdentity(b2).Ok? <==> DecodeAssemblyIdentity(b).Ok?
    ensures DecodeAssemblyIdentity(b).Ok? ==> DecodeAssemblyIdentity(b2) == Ok(DecodeAssemblyIdentity(b).value.(assemblyType := s))
    ensures DecodeAssemblyIdentity(b).Err? ==> DecodeAssemblyIdentity(b2) == DecodeAssemblyIdentity(b)
  {
    assert TextOr(b2, AssemblyIdentity.Type, DefaultWin32()) == Ok(s);
    assert TextOr(b, AssemblyIdentity.Type, DefaultWin32()) == Ok(DefaultWin32());
  }

  /** The default is the value `win32`: writing it explicitly changes nothing. */
  lemma IdentityTypeDefault(b: Body)
    requires Absent(b, AssemblyIdentity.Type)
    ensures DecodeAssemblyIdentity(AddAttribute(b, "type", DefaultWin32())) == DecodeAssemblyIdentity(b)
  {
    IdentityTypeGiven(b, DefaultWin32());
  }

  /**
    An explicit `mapFileExtensions` where none was given is decoded as written, never
    overridden by the default, and leaves the rest of the deployment as it was.
  */
  lemma MapFileExtensionsGiven(b: Body, key: string, x: bool)
    requires Absent(b, Deployment.MapFileExtensions) && key in Deployment.MapFileExtensions.Spellings()
    ensures DecodeDeployment(AddAttribute(b, key, BoolText(x))).Ok? <==> DecodeDeployment(b).Ok?
    ensures DecodeDeployment(b).Ok? ==>
              DecodeDeployment(AddAttribute(b, key, BoolText(x)))
              == Ok(DecodeDeployment(b).value.(mapFileExtensions := x))
    ensures DecodeDeployment(b).Err? ==> DecodeDeployment(AddAttribute(b, key, BoolText(x))) == DecodeDeployment(b)
  {
    MapFileExtensionsElsewhere(b, key, x);
    MapFileExtensionsSet(b, key, x);
    MapFileExtensionsAlike(b, AddAttribute(b, key, BoolText(x)), x);
  }

  /** The default is the value `false`: writing it explicitly changes nothing. */
  lemma MapFileExtensionsDefault(b: Body, key: string)
    requires Absent(b, Deployment.MapFileExtensions) && key in Deployment.MapFileExtensions.Spellings()
    ensures DecodeDeployment(AddAttribute(b, key, "false")) == DecodeDeployment(b)
  {
    MapFileExtensionsGiven(b, key, DefaultFalse());
  }

  /** No other field of `Deployment` is spelled like `mapFileExtensions`. */
  lemma MapFileExtensionsUnshared(key: string)
    requires key in Deployment.MapFileExtensions.Spellings()
    ensures Unknown(key, [Deployment.Install, Deployment.MinimumRequiredVersion, Deployment.DisallowUrlActivation, Deployment.TrustUrlParameters, Deployment.Subscription, Deployment.DeploymentProvider])
  {
  }

  /** Adding `mapFileExtensions` where it is absent sets it and leaves every other field's reading as it was. */
  lemma MapFileExtensionsElsewhere(b: Body, key: string, x: bool)
    requires Absent(b, Deployment.MapFileExtensions) && key in Deployment.MapFileExtensions.Spellings()
    ensures var b2 := AddAttribute(b, key, BoolText(x)); RequiredParsed(b2, Deployment.Install, ParseBool) == RequiredParsed(b, Deployment.Install, ParseBool)
    ensures var b2 := AddAttribute(b, key, BoolText(x)); FieldText(b2, Deployment.MinimumRequiredVersion) == FieldText(b, Deployment.MinimumRequiredVersion)
    ensures var b2 := AddAttribute(b, key, BoolText(x)); ParsedOr(b2, Deployment.DisallowUrlActivation, ParseBool, DefaultFalse()) == ParsedOr(b, Deployment.DisallowUrlActivation, ParseBool, DefaultFalse())
    ensures var b2 := AddAttribute(b, key, BoolText(x)); ParsedOr(b2, Deployment.TrustUrlParameters, ParseBool, DefaultFalse()) == ParsedOr(b, Deployment.TrustUrlParameters, ParseBool, DefaultFalse())
    ensures var b2 := AddAttribute(b, key, BoolText(x)); RequiredChild(b2, Deployment.Subscription, DecodeSubscription) == RequiredChild(b, Deployment.Subscription, DecodeSubscription)
    ensures var b2 := AddAttribute(b, key, BoolText(x)); OptionalChild(b2, Deployment.DeploymentProvider, DecodeDeploymentProvider) == OptionalChild(b, Deployment.DeploymentProvider, DecodeDeploymentProvider)
  {
    var b2 := AddAttribute(b, key, BoolText(x));
    var others := [Deployment.Install, Deployment.MinimumRequiredVersion, Deployment.DisallowUrlActivation, Deployment.TrustUrlParameters, Deployment.Subscription, Deployment.DeploymentProvider];
    MapFileExtensionsUnshared(key);
    AddAttributeSameFields(b, key, BoolText(x), others);
    assert others[0] in others && others[1] in others && others[2] in others && others[3] in others && others[4] in others && others[5] in others;
    SameValuesSameParsed(b2, b, Deployment.Install, ParseBool);
    SameValuesSameText(b2, b, Deployment.MinimumRequiredVersion);
    SameValuesSameParsed(b2, b, Deployment.DisallowUrlActivation, ParseBool);
    SameValuesSameParsed(b2, b, Deployment.TrustUrlParameters, ParseBool);
    SameValuesSameChild(b2, b, Deployment.Subscription, DecodeSubscription);
    SameValuesSameChild(b2, b, Deployment.DeploymentProvider, DecodeDeploymentProvider);
  }

  /** Adding `mapFileExtensions` where it is absent reads as the value written; absent, it reads as `false`. */
  lemma MapFileExtensionsSet(b: Body, key: string, x: bool)
    requires Absent(b, Deployment.MapFileExtensions) && key in Deployment.MapFileExtensions.Spellings()
    ensures ParsedOr(b, Deployment.MapFileExtensions, ParseBool, DefaultFalse()) == Ok(DefaultFalse())
    ensures ParsedOr(AddAttribute(b, key, BoolText(x)), Deployment.MapFileExtensions, ParseBool, DefaultFalse()) == Ok(x)
  {
    AddAttributeToAbsent(b, Deployment.MapFileExtensions, key, BoolText(x));
  }

  /** Two deployments that differ only in `mapFileExtensions`, absent from the first, decode alike but for it. */
  lemma MapFileExtensionsAlike(b: Body, b2: Body, x: bool)
    requires RequiredParsed(b2, Deployment.Install, ParseBool) == RequiredParsed(b, Deployment.Install, ParseBool)
    requires FieldText(b2, Deployment.MinimumRequiredVersion) == FieldText(b, Deployment.MinimumRequiredVersion)
    requires ParsedOr(b2, Deployment.DisallowUrlActivation, ParseBool, DefaultFalse()) == ParsedOr(b, Deployment.DisallowUrlActivation, ParseBool, DefaultFalse())
    requires ParsedOr(b2, Deployment.TrustUrlParameters, ParseBool, DefaultFalse()) == ParsedOr(b, Deployment.TrustUrlParameters, ParseBool, DefaultFalse())
    requires RequiredChild(b2, Deployment.Subscription, DecodeSubscription) == RequiredChild(b, Deployment.Subscription, DecodeSubscription)
    requires OptionalChild(b2, Deployment.DeploymentProvider, DecodeDeploymentProvider) == OptionalChild(b, Deployment.DeploymentProvider, DecodeDeploymentProvider)
    requires ParsedOr(b, Deployment.MapFileExtensions, ParseBool, DefaultFalse()) == Ok(DefaultFalse())
    requires ParsedOr(b2, Deployment.MapFileExtensions, ParseBool, DefaultFalse()) == Ok(x)
    ensures DecodeDeployment(b2).Ok? <==> DecodeDeployment(b).Ok?
    ensures DecodeDeployment(b).Ok? ==> DecodeDeployment(b2) == Ok(DecodeDeployment(b).value.(mapFileExtensions := x))
    ensures DecodeDeployment(b).Err? ==> DecodeDeployment(b2) == DecodeDeployment(b)
  {
  }

  /**
    An explicit `disallowUrlActivation` where none was given is decoded as written, never
    overridden by the default, and leaves the rest of the deployment as it was.
  */
  lemma DisallowUrlActivationGiven(b: Body, key: string, x: bool)
    requires Absent(b, Deployment.DisallowUrlActivation) && key in Deployment.DisallowUrlActivation.Spellings()
    ensures DecodeDeployment(AddAttribute(b, key, BoolText(x))).Ok? <==> DecodeDeployment(b).Ok?
    ensures DecodeDeployment(b).Ok? ==>
              DecodeDeployment(AddAttribute(b, key, BoolText(x)))
              == Ok(DecodeDeployment(b).value.(disallowUrlActivation := x))
    ensures DecodeDeployment(b).Err? ==> DecodeDeployment(AddAttribute(b, key, BoolText(x))) == DecodeDeployment(b)
  {
    DisallowUrlActivationElsewhere(b, key, x);
    DisallowUrlActivationSet(b, key, x);
    DisallowUrlActivationAlike(b, AddAttribute(b, key, BoolText(x)), x);
  }

  /** The default is the value `false`: writing it explicitly changes nothing. */
  lemma DisallowUrlActivationDefault(b: Body, key: string)
    requires Absent(b, Deployment.DisallowUrlActivation) && key in Deployment.DisallowUrlActivation.Spellings()
    ensures DecodeDeployment(AddAttribute(b, key, "false")) == DecodeDeployment(b)
  {
    DisallowUrlActivationGiven(b, key, DefaultFalse());
  }

  /** No other field of `Deployment` is spelled like `disallowUrlActivation`. */
  lemma DisallowUrlActivationUnshared(key: string)
    requires key in Deployment.DisallowUrlActivation.Spellings()
    ensures Unknown(key, [Deployment.Install, Deployment.MinimumRequiredVersion, Deployment.MapFileExtensions, Deployment.TrustUrlParameters, Deployment.Subscription, Deployment.DeploymentProvider])
  {
  }

  /** Adding `disallowUrlActivation` where it is absent sets it and leaves every other field's reading as it was. */
  lemma DisallowUrlActivationElsewhere(b: Body, key: string, x: bool)
    requires Absent(b, Deployment.DisallowUrlActivation) && key in Deployment.DisallowUrlActivation.Spellings()
    ensures var b2 := AddAttribute(b, key, BoolText(x)); RequiredParsed(b2, Deployment.Install, ParseBool) == RequiredParsed(b, Deployment.Install, ParseBool)
    ensures var b2 := AddAttribute(b, key, BoolText(x)); FieldText(b2, Deployment.MinimumRequiredVersion) == FieldText(b, Deployment.MinimumRequiredVersion)
    ensures var b2 := AddAttribute(b, key, BoolText(x)); ParsedOr(b2, Deployment.MapFileExtensions, ParseBool, DefaultFalse()) == ParsedOr(b, Deployment.MapFileExtensions, ParseBool, DefaultFalse())
    ensures var b2 := AddAttribute(b, key, BoolText(x)); ParsedOr(b2, Deployment.TrustUrlParameters, ParseBool, DefaultFalse()) == ParsedOr(b, Deployment.TrustUrlParameters, ParseBool, DefaultFalse())
    ensures var b2 := AddAttribute(b, key, BoolText(x)); RequiredChild(b2, Deployment.Subscription, DecodeSubscription) == RequiredChild(b, Deployment.Subscription, DecodeSubscription)
    ensures var b2 := AddAttribute(b, key, BoolText(x)); OptionalChild(b2, Deployment.DeploymentProvider, DecodeDeploymentProvider) == OptionalChild(b, Deployment.DeploymentProvider, DecodeDeploymentProvider)
  {
    var b2 := AddAttribute(b, key, BoolText(x));
    var others := [Deployment.Install, Deployment.MinimumRequiredVersion, Deployment.MapFileExtensions, Deployment.TrustUrlParameters, Deployment.Subscription, Deployment.DeploymentProvider];
    DisallowUrlActivationUnshared(key);
    AddAttributeSameFields(b, key, BoolText(x), others);
    assert others[0] in others && others[1] in others && others[2] in others && others[3] in others && others[4] in others && others[5] in others;
    SameValuesSameParsed(b2, b, Deployment.Install, ParseBool);
    SameValuesSameText(b2, b, Deployment.MinimumRequiredVersion);
    SameValuesSameParsed(b2, b, Deployment.MapFileExtensions, ParseBool);
    SameValuesSameParsed(b2, b, Deployment.TrustUrlParameters, ParseBool);
    SameValuesSameChild(b2, b, Deployment.Subscription, DecodeSubscription);
    SameValuesSameChild(b2, b, Deployment.DeploymentProvider, DecodeDeploymentProvider);
  }

  /** Adding `disallowUrlActivation` where it is absent reads as the value written; absent, it reads as `false`. */
  lemma DisallowUrlActivationSet(b: Body, key: string, x: bool)
    requires Absent(b, Deployment.DisallowUrlActivation) && key in Deployment.DisallowUrlActivation.Spellings()
    ensures ParsedOr(b, Deployment.DisallowUrlActivation, ParseBool, DefaultFalse()) == Ok(DefaultFalse())
    ensures ParsedOr(AddAttribute(b, key, BoolText(x)), Deployment.DisallowUrlActivation, ParseBool, DefaultFalse()) == Ok(x)
  {
    AddAttributeToAbsent(b, Deployment.DisallowUrlActivation, key, BoolText(x));
  }

  /** Two deployments that differ only in `disallowUrlActivation`, absent from the first, decode alike but for it. */
  lemma DisallowUrlActivationAlike(b: Body, b2: Body, x: bool)
    requires RequiredParsed(b2, Deployment.Install, ParseBool) == RequiredParsed(b, Deployment.Install, ParseBool)
    requires FieldText(b2, Deployment.MinimumRequiredVersion) == FieldText(b, Deployment.MinimumRequiredVersion)
    requires ParsedOr(b2, Deployment.MapFileExtensions, ParseBool, DefaultFalse()) == ParsedOr(b, Deployment.MapFileExtensions, ParseBool, DefaultFalse())
    requires ParsedOr(b2, Deployment.TrustUrlParameters, ParseBool, DefaultFalse()) == ParsedOr(b, Deployment.TrustUrlParameters, ParseBool, DefaultFalse())
    requires RequiredChild(b2, Deployment.Subscription, DecodeSubscription) == RequiredChild(b, Deployment.Subscription, DecodeSubscription)
    requires OptionalChild(b2, Deployment.DeploymentProvider, DecodeDeploymentProvider) == OptionalChild(b, Deployment.DeploymentProvider, DecodeDeploymentProvider)
    requires ParsedOr(b, Deployment.DisallowUrlActivation, ParseBool, DefaultFalse()) == Ok(DefaultFalse())
    requires ParsedOr(b2, Deployment.DisallowUrlActivation, ParseBool, DefaultFalse()) == Ok(x)
    ensures DecodeDeployment(b2).Ok? <==> DecodeDeployment(b).Ok?
    ensures DecodeDeployment(b).Ok? ==> DecodeDeployment(b2) == Ok(DecodeDeployment(b).value.(disallowUrlActivation := x))
    ensures DecodeDeployment(b).Err? ==> DecodeDeployment(b2) == DecodeDeployment(b)
  {
  }

  /**
    An explicit `trustUrlParameters` where none was given is decoded as written, never
    overridden by the default, and leaves the rest of the deployment as it was.
  */
  lemma TrustUrlParametersGiven(b: Body, key: string, x: bool)
    requires Absent(b, Deployment.TrustUrlParameters) && key in Deployment.TrustUrlParameters.Spellings()
    ensures DecodeDeployment(AddAttribute(b, key, BoolText(x))).Ok? <==> DecodeDeployment(b).Ok?
    ensures DecodeDeployment(b).Ok? ==>
              DecodeDeployment(AddAttribute(b, key, BoolText(x)))
              == Ok(DecodeDeployment(b).value.(trustUrlParameters := x))
    ensures DecodeDeployment(b).Err? ==> DecodeDeployment(AddAttribute(b, key, BoolText(x))) == DecodeDeployment(b)
  {
    TrustUrlParametersElsewhere(b, key, x);
    TrustUrlParametersSet(b, key, x);
    TrustUrlParametersAlike(b, AddAttribute(b, key, BoolText(x)), x);
  }

  /** The default is the value `false`: writing it explicitly changes nothing. */
  lemma TrustUrlParametersDefault(b: Body, key: string)
    requires Absent(b, Deployment.TrustUrlParameters) && key in Deployment.TrustUrlParameters.Spellings()
    ensures DecodeDeployment(AddAttribute(b, key, "false")) == DecodeDeployment(b)
  {
    TrustUrlParametersGiven(b, key, DefaultFalse());
  }

  /** No other field of `Deployment` is spelled like `trustUrlParameters`. */
  lemma TrustUrlParametersUnshared(key: string)
    requires key in Deployment.TrustUrlParameters.Spellings()
    ensures Unknown(key, [Deployment.Install, Deployment.MinimumRequiredVersion, Deployment.MapFileExtensions, Deployment.DisallowUrlActivation, Deployment.Subscription, Deployment.DeploymentProvider])
  {
  }

  /** Adding `trustUrlParameters` where it is absent sets it and leaves every other field's reading as it was. */
  lemma TrustUrlParametersElsewhere(b: Body, key: string, x: bool)
    requires Absent(b, Deployment.TrustUrlParameters) && key in Deployment.TrustUrlParameters.Spellings()
    ensures var b2 := AddAttribute(b, key, BoolText(x)); RequiredParsed(b2, Deployment.Install, ParseBool) == RequiredParsed(b, Deployment.Install, ParseBool)
    ensures var b2 := AddAttribute(b, key, BoolText(x)); FieldText(b2, Deployment.MinimumRequiredVersion) == FieldText(b, Deployment.MinimumRequiredVersion)
    ensures var b2 := AddAttribute(b, key, BoolText(x)); ParsedOr(b2, Deployment.MapFileExtensions, ParseBool, DefaultFalse()) == ParsedOr(b, Deployment.MapFileExtensions, ParseBool, DefaultFalse())
    ensures var b2 := AddAttribute(b, key, BoolText(x)); ParsedOr(b2, Deployment.DisallowUrlActivation, ParseBool, DefaultFalse()) == ParsedOr(b, Deployment.DisallowUrlActivation, ParseBool, DefaultFalse())
    ensures var b2 := AddAttribute(b, key, BoolText(x)); RequiredChild(b2, Deployment.Subscription, DecodeSubscription) == RequiredChild(b, Deployment.Subscription, DecodeSubscription)
    ensures var b2 := AddAttribute(b, key, BoolText(x)); OptionalChild(b2, Deployment.DeploymentProvider, DecodeDeploymentProvider) == OptionalChild(b, Deployment.DeploymentProvider, DecodeDeploymentProvider)
  {
    var b2 := AddAttribute(b, key, BoolText(x));
    var others := [Deployment.Install, Deployment.MinimumRequiredVersion, Deployment.MapFileExtensions, Deployment.DisallowUrlActivation, Deployment.Subscription, Deployment.DeploymentProvider];
    TrustUrlParametersUnshared(key);
    AddAttributeSameFields(b, key, BoolText(x), others);
    assert others[0] in others && others[1] in others && others[2] in others && others[3] in others && others[4] in others && others[5] in others;
    SameValuesSameParsed(b2, b, Deployment.Install, ParseBool);
    SameValuesSameText(b2, b, Deployment.MinimumRequiredVersion);
    SameValuesSameParsed(b2, b, Deployment.MapFileExtensions, ParseBool);
    SameValuesSameParsed(b2, b, Deployment.DisallowUrlActivation, ParseBool);
    SameValuesSameChild(b2, b, Deployment.Subscription, DecodeSubscription);
    SameValuesSameChild(b2, b, Deployment.DeploymentProvider, DecodeDeploymentProvider);
  }

  /** Adding `trustUrlParameters` where it is absent reads as the value written; absent, it reads as `false`. */
  lemma TrustUrlParametersSet(b: Body, key: string, x: bool)
    requires Absent(b, Deployment.TrustUrlParameters) && key in Deployment.TrustUrlParameters.Spellings()
    ensures ParsedOr(b, Deployment.TrustUrlParameters, ParseBool, DefaultFalse()) == Ok(DefaultFalse())
    ensures ParsedOr(AddAttribute(b, key, BoolText(x)), Deployment.TrustUrlParameters, ParseBool, DefaultFalse()) == Ok(x)
  {
    AddAttributeToAbsent(b, Deployment.TrustUrlParameters, key, BoolText(x));
  }

  /** Two deployments that differ only in `trustUrlParameters`, absent from the first, decode alike but for it. */
  lemma TrustUrlParametersAlike(b: Body, b2: Body, x: bool)
    requires RequiredParsed(b2, Deployment.Install, ParseBool) == RequiredParsed(b, Deployment.Install, ParseBool)
    requires FieldText(b2, Deployment.MinimumRequiredVersion) == FieldText(b, Deployment.MinimumRequiredVersion)
    requires ParsedOr(b2, Deployment.MapFileExtensions, ParseBool, DefaultFalse()) == ParsedOr(b, Deployment.MapFileExtensions, ParseBool, DefaultFalse())
    requires ParsedOr(b2, Deployment.DisallowUrlActivation, ParseBool, DefaultFalse()) == ParsedOr(b, Deployment.DisallowUrlActivation, ParseBool, DefaultFalse())
    requires RequiredChild(b2, Deployment.Subscription, DecodeSubscription) == RequiredChild(b, Deployment.Subscription, DecodeSubscription)
    requires OptionalChild(b2, Deployment.DeploymentProvider, DecodeDeploymentProvider) == OptionalChild(b, Deployment.DeploymentProvider, DecodeDeploymentProvider)
    requires ParsedOr(b, Deployment.TrustUrlParameters, ParseBool, DefaultFalse()) == Ok(DefaultFalse())
    requires ParsedOr(b2, Deployment.TrustUrlParameters, ParseBool, DefaultFalse()) == Ok(x)
    ensures DecodeDeployment(b2).Ok? <==> DecodeDeployment(b).Ok?
    ensures DecodeDeployment(b).Ok? ==> DecodeDeployment(b2) == Ok(DecodeDeployment(b).value.(trustUrlParameters := x))
    ensures DecodeDeployment(b).Err? ==> DecodeDeployment(b2) == DecodeDeployment(b)
  {
  }

  // ---------------------------------------------------------------------------
  // Closed enums: exactly the variant names and their aliases, and nothing else.

  /** `ProcessorArchitecture` reads six spellings; lower-case `ia64` is not among them. */
  lemma ProcessorArchitectureClosed(s: string)
    ensures ParseProcessorArchitecture(s).Some? <==> s in ["Msil", "msil", "X86", "x86", "IA64", "Itanium"]
    ensures ParseProcessorArchitecture("ia64") == Option.None
    ensures ParseProcessorArchitecture("sparc") == Option.None
  {
  }

  /** `DependencyType` reads four spellings and nothing else. */
  lemma DependencyTypeClosed(s: string)
    ensures ParseDependencyType(s).Some? <==> s in ["Install", "install", "Prerequisite", "preRequisite"]
  {
  }

  /** An architecture the enum does not name fails the identity; it is never replaced by a default. */
  lemma UnknownArchitectureFails(b: Body, s: string)
    requires Gives(b, AssemblyIdentity.ProcessorArchitecture, s) && ParseProcessorArchitecture(s) == Option.None
    ensures DecodeAssemblyIdentity(b).Err?
  {
  }

  /** A dependency type the enum does not name fails the dependent assembly. */
  lemma UnknownDependencyTypeFails(b: Body, s: string)
    requires Gives(b, DependentAssembly.DependencyType, s) && ParseDependencyType(s) == Option.None
    ensures DecodeDependentAssembly(b).Err?
  {
  }

  // ---------------------------------------------------------------------------
  // Which names a field answers to.

  /**
    `CompatibleFrameworks.support_url` declares no alias: under the name
    `supportUrl` it is an unknown name and ignored, attribute or child.
  */
  lemma CompatibleFrameworksSupportUrlUnaliased(b: Body, v: string, child: Body)
    ensures DecodeCompatibleFrameworks(AddAttribute(b, "supportUrl", v)) == DecodeCompatibleFrameworks(b)
    ensures DecodeCompatibleFrameworks(AddChild(b, Element("supportUrl", child))) == DecodeCompatibleFrameworks(b)
  {
    CompatibleFrameworksIsLocal();
    UnknownAttributeIgnored(DecodeCompatibleFrameworks, CompatibleFrameworks.Fields, b, "supportUrl", v);
    UnknownChildIgnored(DecodeCompatibleFrameworks, CompatibleFrameworks.Fields, b, Element("supportUrl", child));
  }

  /** Under its snake_case name the same attribute does set `CompatibleFrameworks.support_url`. */
  lemma CompatibleFrameworksSupportUrlGiven(b: Body, v: string)
    requires Absent(b, CompatibleFrameworks.SupportUrl) && DecodeCompatibleFrameworks(b).Ok?
    ensures DecodeCompatibleFrameworks(AddAttribute(b, "support_url", v))
            == Ok(DecodeCompatibleFrameworks(b).value.(supportUrl := Some(v)))
  {
    var b2 := AddAttribute(b, "support_url", v);
    AddAttributeSameFields(b, "support_url", v, [CompatibleFrameworks.Frameworks]);
    assert CompatibleFrameworks.Frameworks in [CompatibleFrameworks.Frameworks];
    SameValuesSameChild(b2, b, CompatibleFrameworks.Frameworks, DecodeFramework);
    AddAttributeToAbsent(b, CompatibleFrameworks.SupportUrl, "support_url", v);
  }

  /** `Description.support_url` does declare the alias: `supportUrl` sets it. */
  lemma DescriptionSupportUrlGiven(b: Body, key: string, v: string)
    requires Absent(b, Description.SupportUrl) && key in Description.SupportUrl.Spellings()
    requires DecodeDescription(b).Ok?
    ensures DecodeDescription(AddAttribute(b, key, v)) == Ok(DecodeDescription(b).value.(supportUrl := Some(v)))
  {
    var b2 := AddAttribute(b, key, v);
    var others := [Description.Publisher, Description.Product, Description.SuiteName];
    SupportUrlUnshared(key);
    AddAttributeSameFields(b, key, v, others);
    assert others[0] in others && others[1] in others && others[2] in others;
    SameValuesSameText(b2, b, Description.Publisher);
    SameValuesSameText(b2, b, Description.Product);
    SameValuesSameText(b2, b, Description.SuiteName);
    AddAttributeToAbsent(b, Description.SupportUrl, key, v);
    DescriptionAlike(b, b2, v);
  }

  /** No other field of `Description` is spelled like `support_url`. */
  lemma SupportUrlUnshared(key: string)
    requires key in Description.SupportUrl.Spellings()
    ensures Unknown(key, [Description.Publisher, Description.Product, Description.SuiteName])
  {
  }

  /** Two descriptions that differ only in `support_url`, absent from the first, decode alike but for it. */
  lemma DescriptionAlike(b: Body, b2: Body, v: string)
    requires RequiredText(b2, Description.Publisher) == RequiredText(b, Description.Publisher)
    requires RequiredText(b2, Description.Product) == RequiredText(b, Description.Product)
    requires FieldText(b2, Description.SuiteName) == FieldText(b, Description.SuiteName)
    requires FieldText(b, Description.SupportUrl) == Ok(Option.None)
    requires FieldText(b2, Description.SupportUrl) == Ok(Some(v))
    requires DecodeDescription(b).Ok?
    ensures DecodeDescription(b2) == Ok(DecodeDescription(b).value.(supportUrl := Some(v)))
  {
  }

  /** No struct carries `deny_unknown_fields`: a name that no field of `Assembly` spells is ignored. */
  lemma UnknownNamesIgnored(b: Body, key: string, v: string, child: Element)
    ensures Unknown(key, Assembly.Fields) ==>
              DecodeDeploymentManifest(AddAttribute(b, key, v)) == DecodeDeploymentManifest(b)
    ensures Unknown(child.name, Assembly.Fields) ==>
              DecodeDeploymentManifest(AddChild(b, child)) == DecodeDeploymentManifest(b)
  {
    AssemblyIsLocal();
    if Unknown(key, Assembly.Fields) {
      UnknownAttributeIgnored(DecodeAssembly, Assembly.Fields, b, key, v);
    }
    if Unknown(child.name, Assembly.Fields) {
      UnknownChildIgnored(DecodeAssembly, Assembly.Fields, b, child);
    }
  }

  // ---------------------------------------------------------------------------
  // `Update`: one variant, chosen by the name of the one child element.

  /** No name selects two different variants. */
  lemma UpdateNamesDisjoint(u: Update, v: Update, name: string)
    requires name in u.Spellings() && name in v.Spellings()
    ensures u.None? == v.None? && u.BeforeApplicationStartup? == v.BeforeApplicationStartup?
    ensures u.Expiration? == v.Expiration?
  {
  }

  /**
    A single child named after a variant selects that variant: a unit
    variant exactly when its element is empty, and `Expiration` exactly when
    the child decodes as the expiration it carries. With `DecodeUpdate`'s own
    contract this makes the choice an if-and-only-if.
  */
  lemma UpdateChosenByName(b: Body, u: Update)
    requires |b.children| == 1 && b.children[0].name in u.Spellings()
    ensures !u.Expiration? ==> (DecodeUpdate(b) == Ok(u) <==> EmptyBody(b.children[0].body))
    ensures u.Expiration? ==> (DecodeUpdate(b) == Ok(u) <==> DecodeExpiration(b.children[0].body) == Ok(u.expiration))
  {
    var name := b.children[0].name;
    if name in Update.NoneNames {
      UpdateNamesDisjoint(u, Update.None, name);
    }
    if name in Update.BeforeApplicationStartupNames {
      UpdateNamesDisjoint(u, Update.BeforeApplicationStartup, name);
    }
  }

  /**
    Without child elements the variant is named by the character data: a
    unit variant is chosen, while `Expiration`, which needs an element, is
    refused.
  */
  lemma UpdateChosenByText(b: Body, u: Update)
    requires b.children == [] && b.text in u.Spellings()
    ensures !u.Expiration? ==> DecodeUpdate(b) == Ok(u)
    ensures u.Expiration? ==> DecodeUpdate(b) == Err(UnexpectedToken("expiration"))
  {
    if b.text in Update.NoneNames {
      UpdateNamesDisjoint(u, Update.None, b.text);
    }
    if b.text in Update.BeforeApplicationStartupNames {
      UpdateNamesDisjoint(u, Update.BeforeApplicationStartup, b.text);
    }
  }

  /** A single child that names no variant is an unknown variant. */
  lemma UpdateUnknownName(b: Body)
    requires |b.children| == 1
    requires forall u: Update :: b.children[0].name !in u.Spellings()
    ensures DecodeUpdate(b) == Err(UnknownVariant(b.children[0].name))
  {
    assert b.children[0].name !in Update.None.Spellings();
    assert b.children[0].name !in Update.BeforeApplicationStartup.Spellings();
    assert b.children[0].name !in Update.Expiration(Expiration.Expiration("", "")).Spellings();
  }

  /** `<update><expiration maximumAge="m" unit="u"/></update>` carries `m` and `u` unchanged. */
  lemma ExpirationCarried(m: string, u: string)
    ensures DecodeUpdate(Body([], [Element("expiration", Body([Attribute("maximumAge", m), Attribute("unit", u)], [], ""))], ""))
            == Ok(Update.Expiration(Expiration.Expiration(m, u)))
  {
    var e := Body([Attribute("maximumAge", m), Attribute("unit", u)], [], "");
    var maximumAge := Expiration.MaximumAge.Spellings();
    var unit := Expiration.Unit.Spellings();
    assert e.attributes[1..] == [Attribute("unit", u)] && e.attributes[1..][1..] == [];
    assert "maximumAge" in maximumAge && "unit" !in maximumAge;
    assert "maximumAge" !in unit && "unit" in unit;
    assert AttributeValues(e.attributes[1..], maximumAge) == [];
    assert Values(e, maximumAge) == [Text(m)];
    assert AttributeValues(e.attributes[1..], unit) == [Text(u)];
    assert Values(e, unit) == [Text(u)];
    UpdateChosenByName(Body([], [Element("expiration", e)], ""), Update.Expiration(Expiration.Expiration(m, u)));
  }

  /** Both markers together are refused rather than resolved in favour of either. */
  lemma BothMarkersRefused(attributes: seq<Attribute>, before: Body, expiration: Body, text: string)
    ensures DecodeUpdate(Body(attributes, [Element("beforeApplicationStartup", before), Element("expiration", expiration)], text))
            == Err(AmbiguousChoice("update"))
  {
  }

  // ---------------------------------------------------------------------------
  // Lists keep document order.

  /** A further `<framework>` is decoded after, and kept after, the ones before it. */
  lemma FrameworkAppended(b: Body, fb: Body)
    requires DecodeCompatibleFrameworks(b).Ok? && DecodeFramework(fb).Ok?
    ensures DecodeCompatibleFrameworks(AddChild(b, Element("framework", fb)))
            == Ok(DecodeCompatibleFrameworks(b).value.(
                    frameworks := DecodeCompatibleFrameworks(b).value.frameworks + [DecodeFramework(fb).value]))
  {
    var child := Element("framework", fb);
    var b2 := AddChild(b, child);
    AddChildSameFields(b, child, [CompatibleFrameworks.SupportUrl]);
    assert CompatibleFrameworks.SupportUrl in [CompatibleFrameworks.SupportUrl];
    SameValuesSameText(b2, b, CompatibleFrameworks.SupportUrl);
    ChildrenAppend(b, CompatibleFrameworks.Frameworks, DecodeFramework, child);
  }

  /** A further `<dependency>` is decoded after, and kept after, the ones before it. */
  lemma DependencyAppended(b: Body, db: Body)
    requires DecodeAssembly(b).Ok? && DecodeDependency(db).Ok?
    ensures DecodeAssembly(AddChild(b, Element("dependency", db)))
            == Ok(DecodeAssembly(b).value.(dependency := DecodeAssembly(b).value.dependency + [DecodeDependency(db).value]))
  {
    var child := Element("dependency", db);
    var dependency := DecodeAssembly(b).value.dependency;
    DependencyAppendedElsewhere(b, child);
    AssemblyDependencies(b);
    ChildrenAppend(b, Assembly.Dependency, DecodeDependency, child);
    AssemblyAlike(b, AddChild(b, child), dependency + [DecodeDependency(db).value]);
  }

  /** The dependencies of a decoded assembly are its `dependency` children, decoded in order. */
  lemma AssemblyDependencies(b: Body)
    requires DecodeAssembly(b).Ok?
    ensures Children(b, Assembly.Dependency, DecodeDependency) == Ok(DecodeAssembly(b).value.dependency)
  {
  }

  /** A further `<dependency>` changes no other field of `Assembly`. */
  lemma DependencyAppendedElsewhere(b: Body, child: Element)
    requires child.name == "dependency"
    ensures var b2 := AddChild(b, child);
            && RequiredText(b2, Assembly.ManifestVersion) == RequiredText(b, Assembly.ManifestVersion)
            && RequiredChild(b2, Assembly.AssemblyIdentity, DecodeAssemblyIdentity)
               == RequiredChild(b, Assembly.AssemblyIdentity, DecodeAssemblyIdentity)
            && RequiredChild(b2, Assembly.Description, DecodeDescription) == RequiredChild(b, Assembly.Description, DecodeDescription)
            && OptionalChild(b2, Assembly.Deployment, DecodeDeployment) == OptionalChild(b, Assembly.Deployment, DecodeDeployment)
            && RequiredChild(b2, Assembly.CompatibleFrameworks, DecodeCompatibleFrameworks)
               == RequiredChild(b, Assembly.CompatibleFrameworks, DecodeCompatibleFrameworks)
  {
    var b2 := AddChild(b, child);
    var others := [Assembly.ManifestVersion, Assembly.AssemblyIdentity, Assembly.Description, Assembly.Deployment,
                   Assembly.CompatibleFrameworks];
    AddChildSameFields(b, child, others);
    assert others[0] in others && others[1] in others && others[2] in others && others[3] in others && others[4] in others;
    SameValuesSameText(b2, b, Assembly.ManifestVersion);
    SameValuesSameChild(b2, b, Assembly.AssemblyIdentity, DecodeAssemblyIdentity);
    SameValuesSameChild(b2, b, Assembly.Description, DecodeDescription);
    SameValuesSameChild(b2, b, Assembly.Deployment, DecodeDeployment);
    SameValuesSameChild(b2, b, Assembly.CompatibleFrameworks, DecodeCompatibleFrameworks);
  }

  /** Two assemblies that differ only in their dependencies decode alike but for them. */
  lemma AssemblyAlike(b: Body, b2: Body, dependency: seq<Dependency>)
    requires RequiredText(b2, Assembly.ManifestVersion) == RequiredText(b, Assembly.ManifestVersion)
    requires RequiredChild(b2, Assembly.AssemblyIdentity, DecodeAssemblyIdentity)
          == RequiredChild(b, Assembly.AssemblyIdentity, DecodeAssemblyIdentity)
    requires RequiredChild(b2, Assembly.Description, DecodeDescription) == RequiredChild(b, Assembly.Description, DecodeDescription)
    requires OptionalChild(b2, Assembly.Deployment, DecodeDeployment) == OptionalChild(b, Assembly.Deployment, DecodeDeployment)
    requires RequiredChild(b2, Assembly.CompatibleFrameworks, DecodeCompatibleFrameworks)
          == RequiredChild(b, Assembly.CompatibleFrameworks, DecodeCompatibleFrameworks)
    requires Children(b2, Assembly.Dependency, DecodeDependency) == Ok(dependency)
    requires DecodeAssembly(b).Ok?
    ensures DecodeAssembly(b2) == Ok(DecodeAssembly(b).value.(dependency := dependency))
  {
    var manifestVersion := RequiredText(b, Assembly.ManifestVersion).value;
    var assemblyIdentity := RequiredChild(b, Assembly.AssemblyIdentity, DecodeAssemblyIdentity).value;
    var description := RequiredChild(b, Assembly.Description, DecodeDescription).value;
    var deployment := OptionalChild(b, Assembly.Deployment, DecodeDeployment).value;
    var compatibleFrameworks := RequiredChild(b, Assembly.CompatibleFrameworks, DecodeCompatibleFrameworks).value;
    var dependencies := Children(b, Assembly.Dependency, DecodeDependency).value;
    assert DecodeAssembly(b).value
        == Assembly(manifestVersion, assemblyIdentity, description, deployment, compatibleFrameworks, dependencies);
    assert DecodeAssembly(b2)
        == Ok(Assembly(manifestVersion, assemblyIdentity, description, deployment, compatibleFrameworks, dependency));
  }

  // ---------------------------------------------------------------------------
  // All or nothing: a missing or broken required part fails the whole manifest.

  /** `DependentAssembly.size` is documented optional but typed `u32`: a dependency without it fails the manifest. */
  lemma SizelessDependencyFailsManifest(b: Body, i: nat, db: Body)
    requires i < |Values(b, Assembly.Dependency.Spellings())|
    requires Values(b, Assembly.Dependency.Spellings())[i].Nested?
    requires Values(Values(b, Assembly.Dependency.Spellings())[i].body, Dependency.DependentAssembly.Spellings())
             == [Nested(db)]
    requires Absent(db, DependentAssembly.Size)
    ensures DecodeDeploymentManifest(b).Err?
  {
    var vs := Values(b, Assembly.Dependency.Spellings());
    assert DecodeDependentAssembly(db).Err?;
    assert DecodeDependency(vs[i].body).Err?;
  }

  /** `Deployment.subscription` is documented optional but typed required: a deployment without it fails the manifest. */
  lemma SubscriptionlessDeploymentFailsManifest(b: Body, db: Body)
    requires Values(b, Assembly.Deployment.Spellings()) == [Nested(db)]
    requires Absent(db, Deployment.Subscription)
    ensures DecodeDeploymentManifest(b).Err?
  {
    assert DecodeDeployment(db).Err?;
  }

  /** An absent `deployment` is `None`, but one that is present and broken fails the manifest. */
  lemma OptionalDeployment(b: Body)
    requires DecodeAssembly(b).Ok?
    ensures Absent(b, Assembly.Deployment) <==> DecodeAssembly(b).value.deployment.None?
    ensures forall db :: Values(b, Assembly.Deployment.Spellings()) == [Nested(db)] ==>
              DecodeDeployment(db) == Ok(DecodeAssembly(b).value.deployment.value)
  {
  }

  /** A present `hash` needs all three of its children; an absent one is `None`. */
  lemma IncompleteHashFails(b: Body, hb: Body)
    requires Values(b, DependentAssembly.Hash.Spellings()) == [Nested(hb)]
    requires Absent(hb, Hash.Transforms) || Absent(hb, Hash.DigestMethod) || Absent(hb, Hash.DigestValue)
    ensures DecodeDependentAssembly(b).Err?
  {
    assert DecodeHash(hb).Err?;
  }
}
