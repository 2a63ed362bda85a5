# mtgoxml: the ClickOnce deployment manifest and its decoding

This project models two parts of the `mtgoxml` crates in Dafny:

- the typed ClickOnce deployment manifest of `clickonce/src/deploymentmanifest.rs`, as decoded from XML;
- the library entry point `MtgoApplication::from_contents` of `mtgoxml/src/lib.rs`, which drops leading
  byte-order marks and decodes the manifest.

The Rust code states the decoding rules in its declarations. These are the struct fields, their
`#[serde(alias)]`, `#[serde(default)]`, `#[serde(transparent)]` and `#[serde(rename = "$value")]`
attributes, and the enums. `serde_xml_rs` then runs those rules. The model writes them out as functions
over an already-parsed element tree:

- `Xml` is the tree: an element's name, attributes, child elements and character data. `Values` is how
  serde's derived visitor sees an element: the attributes first, then the child elements, in document
  order, filtered by the names a field answers to.
- `Fields` is serde's rule for a single field:
  - given once, it has that value;
  - given twice, it is a duplicate-field error;
  - absent, it is a missing-field error unless the field is an `Option` or has a default. A `Vec` field
    without a default is a required field: absent, it is a missing-field error too.
  - A `Vec` field collects every value, in document order.
  - A name that no field spells is ignored, because no struct declares `deny_unknown_fields`.
- `Primitives` holds the text conversions behind the `bool` and `u32` fields.
- `ClickOnce` holds one datatype and one decoding function per struct, and a closed parser per enum.
  - Each struct's static constants are its fields' alias tables: the snake_case name serde derives,
    followed by the declared alias.
  - Each decoder's contract says what every field of the result was read from.
- `ManifestDecodes` proves the success half of decoding. An element that gives every field of a struct a
  well-formed value decodes to exactly the struct of those values. Together with each decoder's contract,
  which says that a successful decode read every field from the element, decoding is an if-and-only-if.
- `ManifestAliases` proves the alias laws:
  - every decoder reads nothing but its own fields;
  - a field therefore decodes the same under its snake_case name and under its alias.
- `ManifestLaws` proves the rest:
  - defaults apply exactly when a field is absent;
  - the enums are closed;
  - `Update` is one variant chosen by name;
  - the lists keep document order;
  - a missing or broken required part fails the whole manifest.
- `Mtgo` is `from_contents`. The XML reader is a parameter: a function from text to an element tree or a
  decode error.

The documentation and the code disagree on two points. The model follows the code on both:

- `Deployment.subscription` (clickonce/src/deploymentmanifest.rs:163-168) is documented "Optional" but
  typed `Subscription`. A deployment without it fails.
- `DependentAssembly.size` (clickonce/src/deploymentmanifest.rs:287-288) is documented "Optional" but
  typed `u32`. A dependency without it fails.

The choice inside `<update>` follows what the derived enum reading of `serde_xml_rs` does. It does not
follow the doc comment of `Update::None` ("No child found"):

- the variant is named by what comes first inside `<update>`: the name of a child element, or else its
  character data;
- an empty `<update/>` names no variant and is an error, not `Update::None`. `None` is chosen only by a
  child element or text spelled `None`;
- a unit variant (`None`, `beforeApplicationStartup`) written as an element must be empty. Attributes on it
  are refused by their count, and content where its closing tag is expected is refused;
- an `expiration` child also carries its decoded `maximum_age` and `unit`. `Expiration` named by text alone
  is refused, because the struct needs an element;
- two or more child elements, such as both `beforeApplicationStartup` and `expiration`, are refused rather
  than resolved in favour of either. Only the refusal is modelled. The reader reports an unexpected token
  where it expects the closing tag of `<update>`; the model's ambiguous-choice error is its own name for it;
- a single child that names no variant is an unknown-variant error.

## Model

| member | source | states |
|---|---|---|
| Fields.Lookup | clickonce/src/deploymentmanifest.rs:32-33 | a field given once has that one value, given under none of its spellings it is absent, and given twice it is a duplicate-field error |
| Fields.FieldText | clickonce/src/deploymentmanifest.rs:110-112 | a string field reads as absent exactly when nothing is given under any of its spellings; given once, it reads as the attribute's value or the leaf child's character data, and a child with element children is an invalid-type error; given twice, it is a duplicate-field error |
| Fields.TextOf | clickonce/src/deploymentmanifest.rs:110-112 | how one given value reads as a `String`: an attribute gives its value, a child element without element children gives its character data, and a child element with element children is an invalid-type error naming the field |
| Fields.Require | clickonce/src/deploymentmanifest.rs:58-61 | a field without `Option` or default succeeds exactly when it is present and well-formed; absence is a missing-field error |
| Fields.WithDefault | clickonce/src/deploymentmanifest.rs:79-81 | a defaulted field takes the default exactly when absent and otherwise the value given, and fails exactly when the given value does |
| Fields.RequiredText | clickonce/src/deploymentmanifest.rs:58-61 | a required string field decoded is the one text given; absent, it is a missing-field error |
| Fields.TextOr | clickonce/src/deploymentmanifest.rs:78-81 | a defaulted string field is the default when absent and the given text otherwise |
| Fields.Parsed | clickonce/src/deploymentmanifest.rs:74-76 | a converted field is absent exactly when nothing is given; it reads well exactly when its text reads well and the conversion accepts it; text the conversion refuses is an invalid-value error naming that text, never absence; a value read is the conversion of the text given |
| Fields.RequiredParsed | clickonce/src/deploymentmanifest.rs:74-76 | a required converted field decoded is the conversion of the one text given; absent, it is a missing-field error |
| Fields.ParsedOr | clickonce/src/deploymentmanifest.rs:144-146 | a converted field with a default is the default when absent and the conversion of the given text otherwise |
| Fields.OptionalParsed | clickonce/src/deploymentmanifest.rs:270-272 | an `Option` converted field is `None` exactly when absent and otherwise the conversion of the one text given |
| Fields.Child | clickonce/src/deploymentmanifest.rs:42-43 | a struct field is absent exactly when nothing is given under its spellings |
| Fields.RequiredChild | clickonce/src/deploymentmanifest.rs:35-37 | a required struct field decoded is the decoding of the one child given; absent, it is a missing-field error |
| Fields.OptionalChild | clickonce/src/deploymentmanifest.rs:42-43 | an `Option` struct field is `None` exactly when absent and otherwise the decoding of the one child given |
| Fields.DecodeEach | clickonce/src/deploymentmanifest.rs:49-50 | a list decodes to one element per child, each the decoding of that child in document order, and succeeds whenever every child decodes |
| Fields.Children | clickonce/src/deploymentmanifest.rs:49-50 | a `Vec` field holds every child given, decoded in document order; none at all is a missing-field error |
| Fields.DecodeEachAppend | clickonce/src/deploymentmanifest.rs:49-50 | one more decodable child appends its decoding after the others |
| Fields.ChildrenAppend | clickonce/src/deploymentmanifest.rs:237-239 | a further child under a list field's name appends its decoding to the decoded list |
| Fields.GivenText | clickonce/src/deploymentmanifest.rs:58-61 | a string field given once reads as its text, whether it is required or has a default |
| Fields.GivenTextOption | clickonce/src/deploymentmanifest.rs:78-81 | an `Option` or defaulted string field reads as the text given, or as `None` or its default when absent |
| Fields.GivenParsed | clickonce/src/deploymentmanifest.rs:74-76 | a converted field given once with text the conversion accepts reads as that conversion, whether required, optional or defaulted |
| Fields.GivenParsedOption | clickonce/src/deploymentmanifest.rs:144-146 | an `Option` or defaulted converted field reads as the conversion given, or as `None` or its default when absent |
| Fields.GivenChild | clickonce/src/deploymentmanifest.rs:35-37 | a struct field given once as a decodable child reads as that child's decoding |
| Fields.GivenChildOption | clickonce/src/deploymentmanifest.rs:42-43 | an `Option` struct field reads as the child decoding given, or as `None` when absent |
| Fields.GivenList | clickonce/src/deploymentmanifest.rs:49-50 | a `Vec` field given at least one child, every one decodable, reads as those decodings in document order |
| Fields.RenameAgrees | clickonce/src/deploymentmanifest.rs:32-33 | renaming between two spellings that every field treats alike does not change the decoded result |
| Fields.UnknownAttributeIgnored | clickonce/src/deploymentmanifest.rs:29-30 | an attribute under a name no field spells does not change the decoded result |
| Fields.UnknownChildIgnored | clickonce/src/deploymentmanifest.rs:29-30 | a child element under a name no field spells does not change the decoded result, whatever it holds |
| Primitives.ParseBool | clickonce/src/deploymentmanifest.rs:124-128 | a boolean reads exactly from `true` or `false`, and the value read is the one spelled |
| Primitives.ParseU32 | clickonce/src/deploymentmanifest.rs:287-288 | a `u32` reads exactly from an optional `+` and decimal digits whose value is below 2^32, and is that value |
| Primitives.ParseU32Decimal | clickonce/src/deploymentmanifest.rs:287-288 | every `u32` value written in decimal, with or without `+`, reads back unchanged |
| Primitives.ParseU32RejectsSign | clickonce/src/deploymentmanifest.rs:287-288 | a negative size is never read |
| Primitives.ParseBoolText | clickonce/src/deploymentmanifest.rs:124-128 | a boolean written out reads back unchanged, and no other spelling reads as it |
| ClickOnce.DefaultWin32 | clickonce/src/deploymentmanifest.rs:6-8 | `default_win32` is the text `win32`; that an absent `type` reads as it, and only then, is ManifestLaws.IdentityTypeDefault and ManifestLaws.IdentityTypeGiven |
| ClickOnce.DefaultFalse | clickonce/src/deploymentmanifest.rs:10-12 | `default_false` is `false`; that an absent flag reads as it, and only then, is ManifestLaws.MapFileExtensionsDefault and the other flags' Default and Given lemmas |
| ClickOnce.ParseProcessorArchitecture | clickonce/src/deploymentmanifest.rs:84-97 | a text reads as an architecture exactly when it is that variant's name or alias |
| ClickOnce.ParseDependencyType | clickonce/src/deploymentmanifest.rs:298-308 | a text reads as a dependency type exactly when it is that variant's name or alias |
| ClickOnce.DecodeDeploymentManifest | clickonce/src/deploymentmanifest.rs:17-22 | the root is transparent: it decodes exactly when its element decodes as an `Assembly`, to that assembly, with the same error otherwise |
| ClickOnce.DecodeAssembly | clickonce/src/deploymentmanifest.rs:29-51 | a missing required field fails; on success each field is what its spellings give, `deployment` is `None` exactly when absent, and `dependency` is non-empty and in document order; the converse, that such values do decode, is ManifestDecodes.AssemblyDecodes |
| ManifestDecodes.AssemblyDecodes | clickonce/src/deploymentmanifest.rs:29-51 | an element giving a manifest version, a decodable identity, description and framework list, optionally a deployment, and at least one decodable dependency decodes to exactly the `Assembly` of those values |
| ClickOnce.DecodeAssemblyIdentity | clickonce/src/deploymentmanifest.rs:56-82 | name, version, public key token and architecture are required; `type` is `win32` when absent and the given text otherwise; the converse, that such values do decode, is ManifestDecodes.AssemblyIdentityDecodes |
| ManifestDecodes.AssemblyIdentityDecodes | clickonce/src/deploymentmanifest.rs:56-82 | an element giving name, version, public key token and a known architecture decodes to the identity of those values, with `type` as given or `win32` when absent |
| ClickOnce.DecodeDescription | clickonce/src/deploymentmanifest.rs:102-117 | publisher and product are required; suite name and support URL are `None` exactly when absent; the converse, that such values do decode, is ManifestDecodes.DescriptionDecodes |
| ManifestDecodes.DescriptionDecodes | clickonce/src/deploymentmanifest.rs:102-117 | an element giving publisher and product decodes to the description of those values, with suite name and support URL as given or `None` when absent |
| ClickOnce.DecodeDeployment | clickonce/src/deploymentmanifest.rs:122-175 | `install` and `subscription` are required; the three flags are false when absent and the given boolean otherwise; the provider is `None` exactly when absent; the converse, that such values do decode, is ManifestDecodes.DeploymentDecodes |
| ManifestDecodes.DeploymentDecodes | clickonce/src/deploymentmanifest.rs:122-175 | an element giving a boolean `install` and a decodable subscription decodes to the deployment of those values, the flags as given or false when absent, the minimum version and provider as given or `None` |
| ClickOnce.DecodeSubscription | clickonce/src/deploymentmanifest.rs:181-187 | `update` is required and is the decoding of its one child; the converse, that such values do decode, is ManifestDecodes.SubscriptionDecodes |
| ManifestDecodes.SubscriptionDecodes | clickonce/src/deploymentmanifest.rs:181-187 | an element giving a decodable `update` decodes to the subscription carrying it |
| ClickOnce.DecodeUpdate | clickonce/src/deploymentmanifest.rs:192-208 | an empty `<update/>` is an error; several children are refused (with the model's ambiguous-choice error); otherwise the variant is the one the single child's name, or without children the text, spells; a unit variant's element is empty; `Expiration` is always an element and carries that child's decoding |
| ClickOnce.UnitVariant | clickonce/src/deploymentmanifest.rs:195-202 | a unit variant written as an element: accepted with that variant exactly when the element is empty; attributes are refused by their count and content by an unexpected token. Its contract restates its three branches; what it means for `<update>` is stated by ClickOnce.DecodeUpdate and ManifestLaws.UpdateChosenByName |
| ClickOnce.DecodeExpiration | clickonce/src/deploymentmanifest.rs:211-218 | maximum age and unit are required and are the texts given; the converse, that such values do decode, is ManifestDecodes.ExpirationDecodes |
| ManifestDecodes.ExpirationDecodes | clickonce/src/deploymentmanifest.rs:211-218 | an element giving maximum age and unit decodes to the expiration of those texts |
| ClickOnce.DecodeDeploymentProvider | clickonce/src/deploymentmanifest.rs:221-225 | `codebase` is required and is the text given; the converse, that such values do decode, is ManifestDecodes.DeploymentProviderDecodes |
| ManifestDecodes.DeploymentProviderDecodes | clickonce/src/deploymentmanifest.rs:221-225 | an element giving a codebase decodes to the provider of that text |
| ClickOnce.DecodeCompatibleFrameworks | clickonce/src/deploymentmanifest.rs:232-240 | the support URL is `None` exactly when absent; the frameworks are every `frameworks` or `framework` child, in document order, and at least one; the converse, that such values do decode, is ManifestDecodes.CompatibleFrameworksDecodes |
| ManifestDecodes.CompatibleFrameworksDecodes | clickonce/src/deploymentmanifest.rs:232-240 | an element giving at least one decodable framework decodes to those frameworks in document order, with the support URL as given or `None` |
| ClickOnce.DecodeFramework | clickonce/src/deploymentmanifest.rs:243-253 | target version, profile and supported runtime are required and are the texts given; the converse, that such values do decode, is ManifestDecodes.FrameworkDecodes |
| ManifestDecodes.FrameworkDecodes | clickonce/src/deploymentmanifest.rs:243-253 | an element giving target version, profile and supported runtime decodes to the framework of those texts |
| ClickOnce.DecodeDependency | clickonce/src/deploymentmanifest.rs:260-265 | the dependent assembly is required and is the decoding of its one child; the converse, that such values do decode, is ManifestDecodes.DependencyDecodes |
| ManifestDecodes.DependencyDecodes | clickonce/src/deploymentmanifest.rs:260-265 | an element giving a decodable dependent assembly decodes to the dependency carrying it |
| ClickOnce.DecodeDependentAssembly | clickonce/src/deploymentmanifest.rs:268-296 | dependency type, size and identity are required; prerequisite, visible, codebase and hash are `None` exactly when absent; the converse, that such values do decode, is ManifestDecodes.DependentAssemblyDecodes |
| ManifestDecodes.DependentAssemblyDecodes | clickonce/src/deploymentmanifest.rs:268-296 | an element giving a known dependency type, a `u32` size and a decodable identity decodes to the dependent assembly of those values, with prerequisite, visible, codebase and hash as given or `None` |
| ClickOnce.DecodeHash | clickonce/src/deploymentmanifest.rs:311-324 | all three children are required, each the decoding of its one child; the converse, that such values do decode, is ManifestDecodes.HashDecodes |
| ManifestDecodes.HashDecodes | clickonce/src/deploymentmanifest.rs:311-324 | an element giving decodable transforms, digest method and digest value decodes to the hash of those three |
| ClickOnce.DecodeDsigTransforms | clickonce/src/deploymentmanifest.rs:326-331 | the transform is required and is the decoding of its one child; the converse, that such values do decode, is ManifestDecodes.DsigTransformsDecodes |
| ManifestDecodes.DsigTransformsDecodes | clickonce/src/deploymentmanifest.rs:326-331 | an element giving a decodable transform decodes to the transforms carrying it |
| ClickOnce.DecodeDsigTransform | clickonce/src/deploymentmanifest.rs:333-338 | the algorithm is required and is the text given; the converse, that such values do decode, is ManifestDecodes.DsigTransformDecodes |
| ManifestDecodes.DsigTransformDecodes | clickonce/src/deploymentmanifest.rs:333-338 | an element giving an algorithm decodes to the transform of that text |
| ClickOnce.DecodeDsigDigestMethod | clickonce/src/deploymentmanifest.rs:340-345 | the algorithm is required and is the text given; the converse, that such values do decode, is ManifestDecodes.DsigDigestMethodDecodes |
| ManifestDecodes.DsigDigestMethodDecodes | clickonce/src/deploymentmanifest.rs:340-345 | an element giving an algorithm decodes to the digest method of that text |
| ClickOnce.DecodeDsigDigestValue | clickonce/src/deploymentmanifest.rs:347-352 | the digest is the element's character data, and an element without any fails |
| ManifestAliases.AssemblyIsLocal | clickonce/src/deploymentmanifest.rs:29-51 | `Assembly` decodes alike from any two elements that give its six fields the same values |
| ManifestAliases.AssemblyManifestVersionAlias | clickonce/src/deploymentmanifest.rs:32-33 | `manifestVersion` reads as `manifest_version` |
| ManifestAliases.AssemblyAssemblyIdentityAlias | clickonce/src/deploymentmanifest.rs:36-37 | `assemblyIdentity` reads as `assembly_identity` |
| ManifestAliases.AssemblyCompatibleFrameworksAlias | clickonce/src/deploymentmanifest.rs:46-47 | `compatibleFrameworks` reads as `compatible_frameworks` |
| ManifestAliases.AssemblyIdentityIsLocal | clickonce/src/deploymentmanifest.rs:56-82 | `AssemblyIdentity` decodes alike from any two elements that give its five fields the same values |
| ManifestAliases.AssemblyIdentityPublicKeyTokenAlias | clickonce/src/deploymentmanifest.rs:71-72 | `publicKeyToken` reads as `public_key_token` |
| ManifestAliases.AssemblyIdentityProcessorArchitectureAlias | clickonce/src/deploymentmanifest.rs:75-76 | `processorArchitecture` reads as `processor_architecture` |
| ManifestAliases.DescriptionIsLocal | clickonce/src/deploymentmanifest.rs:102-117 | `Description` decodes alike from any two elements that give its four fields the same values |
| ManifestAliases.DescriptionSuiteNameAlias | clickonce/src/deploymentmanifest.rs:111-112 | `suiteName` reads as `suite_name` |
| ManifestAliases.DescriptionSupportUrlAlias | clickonce/src/deploymentmanifest.rs:115-116 | `supportUrl` reads as `support_url` |
| ManifestAliases.DeploymentIsLocal | clickonce/src/deploymentmanifest.rs:122-175 | `Deployment` decodes alike from any two elements that give its seven fields the same values |
| ManifestAliases.DeploymentMinimumRequiredVersionAlias | clickonce/src/deploymentmanifest.rs:135-136 | `minimumRequiredVersion` reads as `minimum_required_version` |
| ManifestAliases.DeploymentMapFileExtensionsAlias | clickonce/src/deploymentmanifest.rs:144-146 | `mapFileExtensions` reads as `map_file_extensions` |
| ManifestAliases.DeploymentDisallowUrlActivationAlias | clickonce/src/deploymentmanifest.rs:151-153 | `disallowUrlActivation` reads as `disallow_url_activation` |
| ManifestAliases.DeploymentTrustURLParametersAlias | clickonce/src/deploymentmanifest.rs:159-161 | `trustURLParameters` reads as `trust_url_parameters` |
| ManifestAliases.DeploymentDeploymentProviderAlias | clickonce/src/deploymentmanifest.rs:173-174 | `deploymentProvider` reads as `deployment_provider` |
| ManifestAliases.ExpirationIsLocal | clickonce/src/deploymentmanifest.rs:211-218 | `Expiration` decodes alike from any two elements that give its two fields the same values |
| ManifestAliases.ExpirationMaximumAgeAlias | clickonce/src/deploymentmanifest.rs:214-215 | `maximumAge` reads as `maximum_age` |
| ManifestAliases.CompatibleFrameworksIsLocal | clickonce/src/deploymentmanifest.rs:232-240 | `CompatibleFrameworks` decodes alike from any two elements that give its two fields the same values |
| ManifestAliases.CompatibleFrameworksFrameworkAlias | clickonce/src/deploymentmanifest.rs:238-239 | `framework` reads as `frameworks` |
| ManifestAliases.FrameworkIsLocal | clickonce/src/deploymentmanifest.rs:243-253 | `Framework` decodes alike from any two elements that give its three fields the same values |
| ManifestAliases.FrameworkTargetVersionAlias | clickonce/src/deploymentmanifest.rs:246-247 | `targetVersion` reads as `target_version` |
| ManifestAliases.FrameworkSupportedRuntimeAlias | clickonce/src/deploymentmanifest.rs:251-252 | `supportedRuntime` reads as `supported_runtime` |
| ManifestAliases.DependencyIsLocal | clickonce/src/deploymentmanifest.rs:260-265 | `Dependency` decodes alike from any two elements that give its field the same values |
| ManifestAliases.DependencyDependentAssemblyAlias | clickonce/src/deploymentmanifest.rs:263-264 | `dependentAssembly` reads as `dependent_assembly` |
| ManifestAliases.DependentAssemblyIsLocal | clickonce/src/deploymentmanifest.rs:268-296 | `DependentAssembly` decodes alike from any two elements that give its seven fields the same values |
| ManifestAliases.DependentAssemblyPreRequisiteAlias | clickonce/src/deploymentmanifest.rs:271-272 | `preRequisite` reads as `prerequisite` |
| ManifestAliases.DependentAssemblyDependencyTypeAlias | clickonce/src/deploymentmanifest.rs:281-282 | `dependencyType` reads as `dependency_type` |
| ManifestAliases.DependentAssemblyAssemblyIdentityAlias | clickonce/src/deploymentmanifest.rs:291-292 | `assemblyIdentity` reads as `assembly_identity` |
| ManifestAliases.HashIsLocal | clickonce/src/deploymentmanifest.rs:311-324 | `Hash` decodes alike from any two elements that give its three fields the same values |
| ManifestAliases.HashTransformsAlias | clickonce/src/deploymentmanifest.rs:314-315 | `Transforms` reads as `dsig_transforms` |
| ManifestAliases.HashDigestMethodAlias | clickonce/src/deploymentmanifest.rs:318-319 | `DigestMethod` reads as `dsig_digest_method` |
| ManifestAliases.HashDigestValueAlias | clickonce/src/deploymentmanifest.rs:322-323 | `DigestValue` reads as `dsig_digest_value` |
| ManifestAliases.DsigTransformsIsLocal | clickonce/src/deploymentmanifest.rs:326-331 | `DsigTransforms` decodes alike from any two elements that give its field the same values |
| ManifestAliases.DsigTransformsTransformAlias | clickonce/src/deploymentmanifest.rs:329-330 | `Transform` reads as `dsig_transform` |
| ManifestAliases.DsigTransformIsLocal | clickonce/src/deploymentmanifest.rs:333-338 | `DsigTransform` decodes alike from any two elements that give its field the same values |
| ManifestAliases.DsigTransformAlgorithmAlias | clickonce/src/deploymentmanifest.rs:336-337 | `Algorithm` reads as `algorithm` |
| ManifestAliases.DsigDigestMethodIsLocal | clickonce/src/deploymentmanifest.rs:340-345 | `DsigDigestMethod` decodes alike from any two elements that give its field the same values |
| ManifestAliases.DsigDigestMethodAlgorithmAlias | clickonce/src/deploymentmanifest.rs:343-344 | `Algorithm` reads as `algorithm` |
| ManifestLaws.IdentityTypeGiven | clickonce/src/deploymentmanifest.rs:78-81 | a `type` written where none was given is decoded as written, never replaced by the default, and nothing else changes |
| ManifestLaws.IdentityTypeDefault | clickonce/src/deploymentmanifest.rs:6-8 | the default is the value `win32`: writing it explicitly changes nothing |
| ManifestLaws.MapFileExtensionsGiven | clickonce/src/deploymentmanifest.rs:144-146 | an explicit `mapFileExtensions` is decoded as written, never overridden by the default, and nothing else changes |
| ManifestLaws.MapFileExtensionsDefault | clickonce/src/deploymentmanifest.rs:10-12 | the default is `false`: writing `mapFileExtensions="false"` changes nothing |
| ManifestLaws.DisallowUrlActivationGiven | clickonce/src/deploymentmanifest.rs:151-153 | an explicit `disallowUrlActivation` is decoded as written, never overridden by the default, and nothing else changes |
| ManifestLaws.DisallowUrlActivationDefault | clickonce/src/deploymentmanifest.rs:10-12 | the default is `false`: writing `disallowUrlActivation="false"` changes nothing |
| ManifestLaws.TrustUrlParametersGiven | clickonce/src/deploymentmanifest.rs:159-161 | an explicit `trustURLParameters` is decoded as written, never overridden by the default, and nothing else changes |
| ManifestLaws.TrustUrlParametersDefault | clickonce/src/deploymentmanifest.rs:10-12 | the default is `false`: writing `trustURLParameters="false"` changes nothing |
| ManifestLaws.ProcessorArchitectureClosed | clickonce/src/deploymentmanifest.rs:84-97 | exactly `Msil`, `msil`, `X86`, `x86`, `IA64` and `Itanium` are read; `ia64` and `sparc` are not |
| ManifestLaws.DependencyTypeClosed | clickonce/src/deploymentmanifest.rs:298-308 | exactly `Install`, `install`, `Prerequisite` and `preRequisite` are read |
| ManifestLaws.UnknownArchitectureFails | clickonce/src/deploymentmanifest.rs:74-76 | an architecture the enum does not name fails the identity rather than defaulting |
| ManifestLaws.UnknownDependencyTypeFails | clickonce/src/deploymentmanifest.rs:281-282 | a dependency type the enum does not name fails the dependent assembly |
| ManifestLaws.CompatibleFrameworksSupportUrlUnaliased | clickonce/src/deploymentmanifest.rs:234-235 | `CompatibleFrameworks.support_url` has no alias: `supportUrl` there is an unknown name and is ignored |
| ManifestLaws.CompatibleFrameworksSupportUrlGiven | clickonce/src/deploymentmanifest.rs:234-235 | under its snake_case name the support URL is set to the text given |
| ManifestLaws.DescriptionSupportUrlGiven | clickonce/src/deploymentmanifest.rs:114-116 | on `Description` either spelling sets the support URL to the text given |
| ManifestLaws.UnknownNamesIgnored | clickonce/src/deploymentmanifest.rs:29-51 | an attribute or child element that no field of `Assembly` spells does not change the decoded manifest |
| ManifestLaws.UpdateNamesDisjoint | clickonce/src/deploymentmanifest.rs:192-208 | no element name selects two different `Update` variants |
| ManifestLaws.UpdateChosenByName | clickonce/src/deploymentmanifest.rs:192-208 | a single child named after a unit variant selects it exactly when the child is empty, and one named `expiration` selects `Expiration` exactly when it decodes as the expiration carried |
| ManifestLaws.UpdateChosenByText | clickonce/src/deploymentmanifest.rs:192-208 | without child elements, text spelling a unit variant selects it, and text spelling `Expiration` is refused |
| ManifestLaws.UpdateUnknownName | clickonce/src/deploymentmanifest.rs:192-208 | a single child that names no variant is refused |
| ManifestLaws.ExpirationCarried | clickonce/src/deploymentmanifest.rs:204-218 | an `expiration` child yields the expiration variant with its `maximumAge` and `unit` unchanged |
| ManifestLaws.BothMarkersRefused | clickonce/src/deploymentmanifest.rs:183-185 | `beforeApplicationStartup` and `expiration` together are refused |
| ManifestLaws.FrameworkAppended | clickonce/src/deploymentmanifest.rs:231-239 | a further `framework` child is decoded after, and kept after, the frameworks before it |
| ManifestLaws.DependencyAppended | clickonce/src/deploymentmanifest.rs:49-50 | a further `dependency` child is decoded after, and kept after, the dependencies before it |
| ManifestLaws.SizelessDependencyFailsManifest | clickonce/src/deploymentmanifest.rs:287-288 | a dependency whose dependent assembly has no `size` fails the whole manifest |
| ManifestLaws.SubscriptionlessDeploymentFailsManifest | clickonce/src/deploymentmanifest.rs:163-168 | a deployment without `subscription` fails the whole manifest |
| ManifestLaws.OptionalDeployment | clickonce/src/deploymentmanifest.rs:42-43 | an absent deployment is `None`; a present one is exactly its decoding |
| ManifestLaws.IncompleteHashFails | clickonce/src/deploymentmanifest.rs:311-324 | a present hash missing any of its three children fails the dependent assembly |
| Mtgo.TrimStartBom | mtgoxml/src/lib.rs:51-52 | the result is a suffix of the text, everything removed is a byte-order mark, and the result does not start with one |
| Mtgo.FromContents | mtgoxml/src/lib.rs:49-56 | every failure is an XML error; a reader failure carries the reader's error and a decoder failure the decoder's error; success holds exactly the manifest decoded from the trimmed text |
| Mtgo.TrimStartBomLeading | mtgoxml/src/lib.rs:52 | any number of leading marks trim away to the same result |
| Mtgo.TrimStartBomExact | mtgoxml/src/lib.rs:52 | all leading marks are removed and nothing else is |
| Mtgo.TrimStartBomIdempotent | mtgoxml/src/lib.rs:52 | trimming twice trims no more than trimming once |
| Mtgo.TrimStartBomKeepsInterior | mtgoxml/src/lib.rs:52 | text that does not start with a mark is unchanged, marks further in included |
| Mtgo.FromContentsIgnoresBoms | mtgoxml/src/lib.rs:50-56 | content with leading marks gives the same result as the content without them |
| Mtgo.ReaderSeesNoBom | mtgoxml/src/lib.rs:52 | the reader is only ever given text that does not start with a mark |
| Mtgo.FromContentsNeverHttp | mtgoxml/src/lib.rs:14-28 | `from_contents` never reports an HTTP error |

## Left out

- `MtgoApplication::default` and `MtgoApplication::from_url` (mtgoxml/src/lib.rs:38-47) fetch the manifest over HTTP. That is I/O, so it is not modelled. `Error::HTTP` is kept without its payload, so that "never HTTP" can be stated.
- `Error::Generic` is never produced by the modelled code and is not modelled.
- `mtgoxml/src/main.rs` is not part of this model. It starts a runtime, sets up logging and prints.
- `FromXML::from_xml` in `clickonce/src/lib.rs` forwards to `serde_xml_rs::from_str`. In the model the XML reader is a parameter of `Mtgo.FromContents`, so the forward is not a separate member.
- The XML tokenizer, well-formedness checking, entity handling and namespace prefixes (such as `dsig:`) are not modelled. The input is an already-parsed tree whose names are local names.
- Whitespace-only character data and mixed content are not modelled. A leaf child gives a string field its character data as one string.
- The element name of the root is not checked, as serde ignores it for a struct target.
- Primitives.ParseBool: assumes the reader accepts exactly `true` and `false`. Other spellings, such as `1`, `0`, `True`, padded text or empty text, are refused by the model whether or not the reader would accept them. The conversions `serde_xml_rs` applies are not part of this model.
- Primitives.ParseU32: assumes the syntax of Rust's `u32::from_str`.
- Fields.Children: collects every child given under any spelling of a `Vec` field, in document order. `serde_xml_rs` reads only one run of consecutive children under one spelling. A second run is reported as a duplicate field. That second run may come after another field's child, or under the other spelling, as with `frameworks` and `framework` mixed. The model accepts both cases.
- Enum values carried as element text rather than attribute text are not distinguished.
- Fields.Child: a struct- or enum-typed field is read only from a child element. An attribute is an invalid-type error. So `<subscription update="beforeApplicationStartup"/>`, where the reader may take the attribute's text as the name of a unit variant, is refused by the model. Likewise an enum field read through its text, such as `processorArchitecture`, is not read from a child element that names the variant (`<processorArchitecture><x86/></processorArchitecture>`); the model refuses that as an invalid type.
- ClickOnce.DecodeUpdate: text mixed with child elements inside `<update>` is not modelled. When there is a child element, the text is ignored. The reader would look at whichever comes first.
- Which error is reported when several fields are wrong: the model reports in field declaration order, while serde reports in document order. Only success or failure, and the decoded value, are modelled faithfully.
- Cross-field rules stated only in documentation are not enforced by the code, so they are not modelled:
  - `install=false` forbids `minimumRequiredVersion`;
  - `subscription` is ignored when `install` is false.
- The elements named in the TODO at clickonce/src/deploymentmanifest.rs:354 are not modelled: `publisherIdentity`, `Signature` and `customErrorReporting`. As unknown names they are ignored.
- The `Debug` formatting and the unit test (clickonce/src/deploymentmanifest.rs:356-372) are not modelled.
- Integer widths: sizes are `u32` values below 2^32, and no other field is numeric.
