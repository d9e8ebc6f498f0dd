# Spring Boot launch properties and the Cloud Foundry run target, in Dafny

This project models two pieces of logic from Spring IDE's Boot tooling.

**Boot launch configurations** (`AbstractBootLaunchConfigurationDelegate`).
A Spring Boot launch configuration stores the user's Spring Boot properties in
its attribute map. Each property is a `PropVal(name, value, isChecked)`. It is
stored under the key `spring.boot.prop.<name>:<oid>` with the value
`'1'|'0'` followed by the property value. The oid is a counter that keeps
repeated names apart. Reading the properties back strips the prefix, cuts
the key at its last `':'`, and skips malformed entries. Checked
properties with a non-empty name and value become `--name=value` program
arguments. A few attribute helpers complete the picture: write only when
the value differs, add the m2e providers only where none is set, set or
remove the project name, and set the debug-output flag.

- `boot_launch_properties.dfy` (module `BootLaunchProperties`) holds the pure
  codec: encoding and decoding of one entry, the whole-map functions, the
  argument builder, and the lemmas. The main lemma is `SetThenGetRoundTrip`.
  It states that reading back after `setProperties` returns exactly the
  stored properties, as a multiset, in whatever order the map hands out its
  keys.
- `boot_launch_config.dfy` (module `BootLaunchConfig`) holds the working copy.
  `WorkingCopy` is a class whose `attrs: map<string, Attr>` and `dirty` flag
  its methods update in place. Each method is proved against the whole-map
  functions.

**The Cloud Foundry run target** (`CloudFoundryRunTarget`).
The target has a client slot and caches of domains, spaces, buildpacks and
cloud info. `connect` and `disconnect` empty the caches. The getters fill
them lazily, at most once. Three pure rules sit beside them: URL
normalisation (strip every trailing `/`), the Pivotal Web Services test,
and buildpack choice (the one buildpack whose name contains
`java_buildpack`, or none).

- `cloud_foundry_run_target.dfy` (module `CloudFoundryRunTarget`) holds the
  `RunTarget` class, the pure rules and the constant tables. Calls into the
  Cloud Foundry client are inputs of type `Fetch<T>`: a value, null, or a
  raised exception. A ghost log `calls` records every remote call, so that
  "fetched at most once" can be stated.
- `strings.dfy` (module `Strings`) models the `java.lang.String` operations
  used: `startsWith`, `endsWith`, `contains`, `indexOf`, `lastIndexOf` and
  `Integer.toString`. `wrappers.dfy` holds `Option` and `Result`, which
  stand for null and for thrown exceptions.

## Model

| member | source | states |
|---|---|---|
| BootLaunchProperties.Equals | plugins/org.springframework.ide.eclipse.boot.launch/src/org/springframework/ide/eclipse/boot/launch/AbstractBootLaunchConfigurationDelegate.java:104-126 | Two PropVals are equal iff check flag, name and value all agree; this is exactly value equality of the datatype |
| BootLaunchProperties.ToString | plugins/org.springframework.ide.eclipse.boot.launch/src/org/springframework/ide/eclipse/boot/launch/AbstractBootLaunchConfigurationDelegate.java:88-92 | The rendering is `[X] ` or `[ ] ` by the check flag, then the name, `=`, and the value |
| BootLaunchProperties.ToStringRoundTrip | plugins/org.springframework.ide.eclipse.boot.launch/src/org/springframework/ide/eclipse/boot/launch/AbstractBootLaunchConfigurationDelegate.java:88-92 | The `[X] `/`[ ] ` rendering of a PropVal reads back as the same PropVal whenever the name holds no `'='` |
| BootLaunchProperties.DecodeEntry | plugins/org.springframework.ide.eclipse.boot.launch/src/org/springframework/ide/eclipse/boot/launch/AbstractBootLaunchConfigurationDelegate.java:184-197 | An attribute yields a property iff its key has the prefix and its value is a non-empty string. The flag is true iff the first char is `'1'`, the value is the rest of the string, and the name is KeyName of the key after the prefix |
| BootLaunchProperties.KeyName | plugins/org.springframework.ide.eclipse.boot.launch/src/org/springframework/ide/eclipse/boot/launch/AbstractBootLaunchConfigurationDelegate.java:186-189 | The name is the key suffix before its last `':'`: a prefix of the suffix followed by a `':'` with no `':'` after it; the whole suffix when there is no `':'` |
| BootLaunchProperties.EncodeKeySplit | plugins/org.springframework.ide.eclipse.boot.launch/src/org/springframework/ide/eclipse/boot/launch/AbstractBootLaunchConfigurationDelegate.java:184-189 | A stored key has the prefix, and its last `':'` is the one written before the oid, so decoding recovers the name even when the name itself contains `':'` |
| BootLaunchProperties.DecodeEncodedEntry | plugins/org.springframework.ide.eclipse.boot.launch/src/org/springframework/ide/eclipse/boot/launch/AbstractBootLaunchConfigurationDelegate.java:215-218 | Decoding the key and value written for a property gives back that property: name, value and check flag |
| BootLaunchProperties.EncodeKeyInjective | plugins/org.springframework.ide.eclipse.boot.launch/src/org/springframework/ide/eclipse/boot/launch/AbstractBootLaunchConfigurationDelegate.java:210-216 | Two stored keys are equal only if both name and oid are equal |
| BootLaunchProperties.Storable | plugins/org.springframework.ide.eclipse.boot.launch/src/org/springframework/ide/eclipse/boot/launch/AbstractBootLaunchConfigurationDelegate.java:212-215 | A property is stored iff it occurs in the input and its name passes hasText; no more are stored than given |
| BootLaunchProperties.StorableAppend | plugins/org.springframework.ide.eclipse.boot.launch/src/org/springframework/ide/eclipse/boot/launch/AbstractBootLaunchConfigurationDelegate.java:210-215 | Storing keeps the input order: the stored properties of a concatenation are those of each part in turn, and a single property is stored iff its name has text |
| BootLaunchProperties.StorableCounts | plugins/org.springframework.ide.eclipse.boot.launch/src/org/springframework/ide/eclipse/boot/launch/AbstractBootLaunchConfigurationDelegate.java:212-215 | Each property whose name has text is stored as many times as it occurs in the input, repeats included; any other property not at all |
| BootLaunchProperties.EncodeAllShape | plugins/org.springframework.ide.eclipse.boot.launch/src/org/springframework/ide/eclipse/boot/launch/AbstractBootLaunchConfigurationDelegate.java:210-219 | The i-th entry written is the i-th property whose name has text, under oid i; a blank name uses up no oid |
| BootLaunchProperties.EncodedKeysDistinct | plugins/org.springframework.ide.eclipse.boot.launch/src/org/springframework/ide/eclipse/boot/launch/AbstractBootLaunchConfigurationDelegate.java:210-219 | The stored keys are pairwise distinct and all prefixed, so no entry overwrites another, even when names repeat |
| BootLaunchProperties.Unprefixed | plugins/org.springframework.ide.eclipse.boot.launch/src/org/springframework/ide/eclipse/boot/launch/AbstractBootLaunchConfigurationDelegate.java:151-164 | clearProperties as a function: a key is kept iff it was present and lacks the prefix, and every kept key keeps its value |
| BootLaunchProperties.StoreAllContents | plugins/org.springframework.ide.eclipse.boot.launch/src/org/springframework/ide/eclipse/boot/launch/AbstractBootLaunchConfigurationDelegate.java:218 | Writing entries with distinct keys adds exactly those keys with their values and leaves every other key as it was |
| BootLaunchProperties.SetPropertiesKeepsOthers | plugins/org.springframework.ide.eclipse.boot.launch/src/org/springframework/ide/eclipse/boot/launch/AbstractBootLaunchConfigurationDelegate.java:151-164 | An attribute without the prefix is present after setProperties iff it was present before, with the same value |
| BootLaunchProperties.SetPropertiesStoresEach | plugins/org.springframework.ide.eclipse.boot.launch/src/org/springframework/ide/eclipse/boot/launch/AbstractBootLaunchConfigurationDelegate.java:205-221 | After setProperties, a prefixed attribute is present iff it is one of the stored keys; older property attributes are gone |
| BootLaunchProperties.SetPropertiesStoredValue | plugins/org.springframework.ide.eclipse.boot.launch/src/org/springframework/ide/eclipse/boot/launch/AbstractBootLaunchConfigurationDelegate.java:215-218 | After setProperties, the key of the i-th storable property holds its flag character followed by its value |
| BootLaunchProperties.DecodedPermutation | plugins/org.springframework.ide.eclipse.boot.launch/src/org/springframework/ide/eclipse/boot/launch/AbstractBootLaunchConfigurationDelegate.java:180-198 | The multiset of properties read does not depend on the order in which the map hands out its entries |
| BootLaunchProperties.SetThenGetRoundTrip | plugins/org.springframework.ide.eclipse.boot.launch/src/org/springframework/ide/eclipse/boot/launch/AbstractBootLaunchConfigurationDelegate.java:205-221 | Reading back after setProperties returns exactly the properties whose name passes hasText, as a multiset, with name, value and flag intact, for any iteration order of the map |
| BootLaunchProperties.PropertyAssignmentArgument | plugins/org.springframework.ide.eclipse.boot.launch/src/org/springframework/ide/eclipse/boot/launch/AbstractBootLaunchConfigurationDelegate.java:232-239 | Fails with the IllegalArgumentException message iff the name holds `'='`. Otherwise returns `--name=value`, which Spring Boot, splitting at the first `'='`, reads back as that name and value when both are non-empty, and rejects when either is empty |
| BootLaunchProperties.ArgumentProps | plugins/org.springframework.ide.eclipse.boot.launch/src/org/springframework/ide/eclipse/boot/launch/AbstractBootLaunchConfigurationDelegate.java:224-226 | Only properties of the input that are checked and have a non-empty name and value become arguments |
| BootLaunchProperties.ArgumentPropsMembers | plugins/org.springframework.ide.eclipse.boot.launch/src/org/springframework/ide/eclipse/boot/launch/AbstractBootLaunchConfigurationDelegate.java:224-226 | A property becomes an argument iff it occurs in the input, is checked and has a non-empty name and value |
| BootLaunchProperties.ArgumentPropsAppend | plugins/org.springframework.ide.eclipse.boot.launch/src/org/springframework/ide/eclipse/boot/launch/AbstractBootLaunchConfigurationDelegate.java:224-228 | The arguments follow the input order: those of a concatenation are those of each part in turn, and a single property yields itself iff it is checked with non-empty name and value |
| BootLaunchProperties.PropertiesArguments | plugins/org.springframework.ide.eclipse.boot.launch/src/org/springframework/ide/eclipse/boot/launch/AbstractBootLaunchConfigurationDelegate.java:223-239 | Argument i is exactly `--name=value` of the i-th checked property with non-empty name and value, whose name holds no `'='`; all of them are produced unless an exception stops the loop |
| BootLaunchProperties.PropertiesArgumentsParseBack | plugins/org.springframework.ide.eclipse.boot.launch/src/org/springframework/ide/eclipse/boot/launch/AbstractBootLaunchConfigurationDelegate.java:232-239 | Each argument produced reads back as the name and value of the property it was made from |
| BootLaunchProperties.PropertiesArgumentsStops | plugins/org.springframework.ide.eclipse.boot.launch/src/org/springframework/ide/eclipse/boot/launch/AbstractBootLaunchConfigurationDelegate.java:224-237 | On an exception, the arguments produced are those of the properties before the first argument property whose name holds `'='`, and the message names that property |
| BootLaunchProperties.PropertiesArgumentsFails | plugins/org.springframework.ide.eclipse.boot.launch/src/org/springframework/ide/eclipse/boot/launch/AbstractBootLaunchConfigurationDelegate.java:223-239 | Adding arguments fails iff some checked property with non-empty name and value has `'='` in its name |
| BootLaunchProperties.AddPropertiesArguments | plugins/org.springframework.ide.eclipse.boot.launch/src/org/springframework/ide/eclipse/boot/launch/AbstractBootLaunchConfigurationDelegate.java:223-230 | The loop leaves the existing arguments in front and appends exactly PropertiesArguments' arguments, stopping with its exception when there is one |
| BootLaunchConfig.ProjectName | plugins/org.springframework.ide.eclipse.boot.launch/src/org/springframework/ide/eclipse/boot/launch/AbstractBootLaunchConfigurationDelegate.java:275-278 | The project name is `""` when unset and the stored string when set; a non-string value is a failure |
| BootLaunchConfig.EnableDebugOutputOf | plugins/org.springframework.ide.eclipse.boot.launch/src/org/springframework/ide/eclipse/boot/launch/AbstractBootLaunchConfigurationDelegate.java:242-249 | Debug output is on iff the attribute holds boolean true; unset or of another kind, it reads as the default, false |
| BootLaunchConfig.StringAttribute | plugins/org.springframework.ide.eclipse.boot.launch/src/org/springframework/ide/eclipse/boot/launch/AbstractBootLaunchConfigurationDelegate.java:365 | `getAttribute(a, (String) null)` fails iff the attribute holds a non-string; otherwise it gives the string held, or none iff the attribute is unset |
| BootLaunchConfig.AfterSetAttribute | plugins/org.springframework.ide.eclipse.boot.launch/src/org/springframework/ide/eclipse/boot/launch/AbstractBootLaunchConfigurationDelegate.java:363-371 | After the helper, the attribute reads the new value unless it held a non-string value. Every other key is untouched. When the attribute already holds that string, or a non-string, the map is unchanged; otherwise only that key changes |
| BootLaunchConfig.SetAttributeIdempotent | plugins/org.springframework.ide.eclipse.boot.launch/src/org/springframework/ide/eclipse/boot/launch/AbstractBootLaunchConfigurationDelegate.java:363-371 | A second identical call to the helper writes nothing and changes nothing |
| BootLaunchConfig.WorkingCopy.ClearProperties | plugins/org.springframework.ide.eclipse.boot.launch/src/org/springframework/ide/eclipse/boot/launch/AbstractBootLaunchConfigurationDelegate.java:151-164 | Removes every prefixed attribute and keeps every other one; the copy becomes dirty iff something was removed |
| BootLaunchConfig.WorkingCopy.SetProperties | plugins/org.springframework.ide.eclipse.boot.launch/src/org/springframework/ide/eclipse/boot/launch/AbstractBootLaunchConfigurationDelegate.java:205-221 | The new map is the old one minus property attributes, plus one entry per property with text; a missing list acts as an empty one |
| BootLaunchConfig.WorkingCopy.GetProperties | plugins/org.springframework.ide.eclipse.boot.launch/src/org/springframework/ide/eclipse/boot/launch/AbstractBootLaunchConfigurationDelegate.java:175-203 | Returns the decoded property of each property attribute, in visiting order, skipping malformed ones |
| BootLaunchConfig.WorkingCopy.SetAttribute | plugins/org.springframework.ide.eclipse.boot.launch/src/org/springframework/ide/eclipse/boot/launch/AbstractBootLaunchConfigurationDelegate.java:363-371 | Writes, and dirties the copy, only when the attribute does not already hold that string |
| BootLaunchConfig.WorkingCopy.EnableClasspathProviders | plugins/org.springframework.ide.eclipse.boot.launch/src/org/springframework/ide/eclipse/boot/launch/AbstractBootLaunchConfigurationDelegate.java:346-349 | Points the source-path and classpath providers at the Boot Maven providers through the write-if-different helper |
| BootLaunchConfig.WorkingCopy.EnableMavenClasspathProvider | plugins/org.springframework.ide.eclipse.boot.launch/src/org/springframework/ide/eclipse/boot/launch/AbstractBootLaunchConfigurationDelegate.java:293-311 | Never changes or removes a present attribute. For a Java application of an m2e project, adds the m2e provider where a provider attribute is missing; otherwise changes nothing |
| BootLaunchConfig.WorkingCopy.SetProject | plugins/org.springframework.ide.eclipse.boot.launch/src/org/springframework/ide/eclipse/boot/launch/AbstractBootLaunchConfigurationDelegate.java:280-287 | With no project the name attribute is removed and then reads as `""`; with a project it reads as that project's name |
| BootLaunchConfig.WorkingCopy.SetEnableDebugOutput | plugins/org.springframework.ide.eclipse.boot.launch/src/org/springframework/ide/eclipse/boot/launch/AbstractBootLaunchConfigurationDelegate.java:251-253 | Stores the flag, and getEnableDebugOutput then reads it back |
| Strings.LastIndexOf | plugins/org.springframework.ide.eclipse.boot.launch/src/org/springframework/ide/eclipse/boot/launch/AbstractBootLaunchConfigurationDelegate.java:186 | The index returned holds the character and no later index does; -1 iff the character does not occur |
| Strings.NatToString | plugins/org.springframework.ide.eclipse.boot.launch/src/org/springframework/ide/eclipse/boot/launch/AbstractBootLaunchConfigurationDelegate.java:216 | The oid prints as a non-empty string of decimal digits, starting with `0` only for zero itself |
| Strings.NatToStringValue | plugins/org.springframework.ide.eclipse.boot.launch/src/org/springframework/ide/eclipse/boot/launch/AbstractBootLaunchConfigurationDelegate.java:216 | The decimal string printed for an oid denotes that oid |
| Strings.NatToStringInjective | plugins/org.springframework.ide.eclipse.boot.launch/src/org/springframework/ide/eclipse/boot/launch/AbstractBootLaunchConfigurationDelegate.java:216 | Distinct oids print as distinct decimal strings |
| Strings.Contains | plugins/org.springframework.ide.eclipse.boot.dash/src/org/springframework/ide/eclipse/boot/dash/cloudfoundry/CloudFoundryRunTarget.java:311 | True iff the pattern occurs at some index of the string |
| CloudFoundryRunTarget.SupportedGoalStates | plugins/org.springframework.ide.eclipse.boot.dash/src/org/springframework/ide/eclipse/boot/dash/cloudfoundry/CloudFoundryRunTarget.java:98-105 | The goal states are exactly INACTIVE, STARTING, RUNNING and DEBUGGING |
| CloudFoundryRunTarget.DefaultColumns | plugins/org.springframework.ide.eclipse.boot.dash/src/org/springframework/ide/eclipse/boot/dash/cloudfoundry/CloudFoundryRunTarget.java:99 | The default columns do not include HOST |
| CloudFoundryRunTarget.AllColumns | plugins/org.springframework.ide.eclipse.boot.dash/src/org/springframework/ide/eclipse/boot/dash/cloudfoundry/CloudFoundryRunTarget.java:99-100 | ALL_COLUMNS is DEFAULT_COLUMNS with HOST inserted right after INSTANCES |
| CloudFoundryRunTarget.NormalizedUrl | plugins/org.springframework.ide.eclipse.boot.dash/src/org/springframework/ide/eclipse/boot/dash/cloudfoundry/CloudFoundryRunTarget.java:250-256 | The result does not end in `/`, is a prefix of the URL, and what it drops is all `/` |
| CloudFoundryRunTarget.IsPwsUrlExactly | plugins/org.springframework.ide.eclipse.boot.dash/src/org/springframework/ide/eclipse/boot/dash/cloudfoundry/CloudFoundryRunTarget.java:246-248 | A URL names Pivotal Web Services iff it is `https://api.run.pivotal.io` followed by any number of `/` |
| CloudFoundryRunTarget.RunTarget.IsPWS | plugins/org.springframework.ide.eclipse.boot.dash/src/org/springframework/ide/eclipse/boot/dash/cloudfoundry/CloudFoundryRunTarget.java:246-248 | The target is PWS iff its URL is `https://api.run.pivotal.io` followed by any number of `/` |
| CloudFoundryRunTarget.JavaBuildpackNames | plugins/org.springframework.ide.eclipse.boot.dash/src/org/springframework/ide/eclipse/boot/dash/cloudfoundry/CloudFoundryRunTarget.java:308-322 | A name is listed iff some buildpack of the list has it and contains `java_buildpack` |
| CloudFoundryRunTarget.JavaBuildpackCount | plugins/org.springframework.ide.eclipse.boot.dash/src/org/springframework/ide/eclipse/boot/dash/cloudfoundry/CloudFoundryRunTarget.java:308-322 | One name is listed per Java buildpack, so two buildpacks with the same Java name count twice |
| CloudFoundryRunTarget.SelectJavaBuildpack | plugins/org.springframework.ide.eclipse.boot.dash/src/org/springframework/ide/eclipse/boot/dash/cloudfoundry/CloudFoundryRunTarget.java:303-323 | Returns a name iff exactly one buildpack (counted by index, so repeated names count separately) contains `java_buildpack`, and then that name; with none, or two or more, returns none |
| CloudFoundryRunTarget.JavaBuildpackUnique | plugins/org.springframework.ide.eclipse.boot.dash/src/org/springframework/ide/eclipse/boot/dash/cloudfoundry/CloudFoundryRunTarget.java:305-321 | When one is picked, every Java buildpack of the list has the picked name |
| CloudFoundryRunTarget.RunTarget.constructor | plugins/org.springframework.ide.eclipse.boot.dash/src/org/springframework/ide/eclipse/boot/dash/cloudfoundry/CloudFoundryRunTarget.java:81-96 | A new target has empty caches and no client |
| CloudFoundryRunTarget.RunTarget.Connect | plugins/org.springframework.ide.eclipse.boot.dash/src/org/springframework/ide/eclipse/boot/dash/cloudfoundry/CloudFoundryRunTarget.java:121-132 | Empties all four caches, then sets the client to what creation returned. If creation raised, the client is emptied and the exception passed on |
| CloudFoundryRunTarget.RunTarget.Disconnect | plugins/org.springframework.ide.eclipse.boot.dash/src/org/springframework/ide/eclipse/boot/dash/cloudfoundry/CloudFoundryRunTarget.java:134-143 | Leaves all caches and the client empty; logs out only a client that was present |
| CloudFoundryRunTarget.RunTarget.Refresh | plugins/org.springframework.ide.eclipse.boot.dash/src/org/springframework/ide/eclipse/boot/dash/cloudfoundry/CloudFoundryRunTarget.java:211-215 | Same end state as Connect, after a logout of the old client if there was one |
| CloudFoundryRunTarget.RunTarget.GetDomains | plugins/org.springframework.ide.eclipse.boot.dash/src/org/springframework/ide/eclipse/boot/dash/cloudfoundry/CloudFoundryRunTarget.java:222-233 | With a cached list, returns it and makes no remote call. Otherwise fetches once and returns the fetch result; only a list is cached. No other field changes |
| CloudFoundryRunTarget.RunTarget.GetSpaces | plugins/org.springframework.ide.eclipse.boot.dash/src/org/springframework/ide/eclipse/boot/dash/cloudfoundry/CloudFoundryRunTarget.java:235-244 | The same lazy rule for spaces |
| CloudFoundryRunTarget.RunTarget.GetCloudInfoV2 | plugins/org.springframework.ide.eclipse.boot.dash/src/org/springframework/ide/eclipse/boot/dash/cloudfoundry/CloudFoundryRunTarget.java:275-284 | Builds the cloud info once, from the credentials and the client's controller URL, and caches it. Without a client it fails and caches nothing |
| CloudFoundryRunTarget.RunTarget.GetBuildpack | plugins/org.springframework.ide.eclipse.boot.dash/src/org/springframework/ide/eclipse/boot/dash/cloudfoundry/CloudFoundryRunTarget.java:286-331 | Fetches buildpacks only while none are cached, and caches a fetched list. Then picks the single Java buildpack. With no project, or a failed or null fetch, returns none |
| CloudFoundryRunTarget.RunTarget.GetUrl | plugins/org.springframework.ide.eclipse.boot.dash/src/org/springframework/ide/eclipse/boot/dash/cloudfoundry/CloudFoundryRunTarget.java:250-256 | The loop returns the normalised URL |
| CloudFoundryRunTarget.DomainsFetchedOnce | plugins/org.springframework.ide.eclipse.boot.dash/src/org/springframework/ide/eclipse/boot/dash/cloudfoundry/CloudFoundryRunTarget.java:222-233 | Two getDomains calls after a successful first fetch both return that first list, and make at most one remote call |

## Left out

- `launch`, `configureClassPathProviders`, `modify`, the process tracker and the breakpoint listener: Eclipse debug and launch runtime. `modify` would save the working copy iff it is dirty; the `dirty` flag is modelled, the save is not.
- `getLaunchConfigs`, `getProject`, `getLaunchMan` and `isIgnoreSilentExitException`: these query workspace singletons, the launch manager and global preferences. Inside `enableMavenClasspathProvider`, `getProject` is modelled as the test "the project name is readable and has text".
- `getMainType` and `setMainType`: plain pass-through of one attribute; not part of this model.
- Strings are sequences of Unicode scalar values, while Java's `charAt(0)` and `substring(1)` in `getProperties` work on UTF-16 code units. For a property attribute not written by `setProperties` whose value starts with a character outside the Basic Multilingual Plane, Java keeps the second half of the surrogate pair in the value, and the model drops the whole character. Values written by `setProperties` start with `'1'` or `'0'`, so the round trip is unaffected. `startsWith`, `lastIndexOf(':')`, `contains` and `endsWith("/")` search for ASCII text, which is a single code unit either way, so they agree with Java.
- `StringUtil.hasText`: its definition is not part of this model, so it is a parameter `hasText` of the operations that use it.
- `PropVal.hashCode`: 32-bit wrapping arithmetic that only matters for hashing; equality is modelled.
- The order in which `getAttributes()` hands out entries is decided by the host map. It is the parameter `order` of `GetProperties`. The round trip is stated for every order that visits each key once.
- CoreExceptions from reading the whole attribute map (caught and logged by Spring IDE) are not modelled: the map is always readable.
- BootLaunchConfig.WorkingCopy.SetProperties: the oid is an unbounded `nat`; a Java `int` would wrap only after 2^31 stored properties.
- The working copy's own `setAttribute` and `removeAttribute` are modelled as Eclipse implements them: they write unconditionally and mark the copy dirty. Its typed getters fail on a value of another kind.
- `enableMavenClasspathProvider`: the configuration type id is a parameter. The m2e nature test is a parameter `hasM2eNature`. A project that cannot answer it counts as lacking the nature.
- The JDT attribute names and the Java application type id are written out from JDT's launching constants; that interface is not part of this model.
- Cloud Foundry client calls are inputs, not modelled: `createClient`, `requests.getDomains` and `getSpaces`, `BuildpackSupport`, `logout`, `getCCApiVersion` (OSGi version parsing), `HealthCheckSupport` and `SshClientSupport`. `logout` is assumed not to throw.
- `CloudInfoV2` is modelled as the value built from the credentials, the controller URL and the self-signed flag. Whatever its constructor does beyond that is not modelled. `getProxyConf` always returns null and is not modelled.
- `LiveVariable` listener notification, connection-state listeners, `synchronized` and `SubMonitor` progress reporting: event and concurrency plumbing.
- `getBuildpack`: `JavaCore.create` returns a Java project for every non-null project, so the project test is "a project was given".
- The target's URL, user name, password and self-signed flag are constants fixed when the run target is built, and never null. The Java target re-reads its `targetProperties` on every call (CloudFoundryRunTarget.java:251, 279, 281 and 293-297), so a change of credentials followed by a refresh is not modelled.
- `RunState` and `BootDashColumn` are not part of this model. The model uses the enum values named in the run target, plus the remaining run states of the Boot Dashboard.
- `createLaunchConfig`, `getLaunchConfigs` (always empty), and the constant answers `canRemove`, `canDeployAppsTo`, `canDeployAppsFrom` and `requiresCredentials` hold no logic and are left out.
- The web-flow property sheets (`ActionProperties`, `AttributeMapperProperties`), `BeansProjectValidator`, `HealthCheckPropertyControl` and `IBeansConfig` are UI and builder glue with no logic of their own; not part of this model.
