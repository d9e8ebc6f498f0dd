/**
 * The launch configuration working copy of a Spring Boot launch, and the
 * static helpers of the Boot launch delegate that read and update its
 * attributes in place.
 */
module BootLaunchConfig {
  import opened Wrappers
  import opened Strings
  import opened BootLaunchProperties

  // Attribute names and the Java application type id defined by JDT's launching plug-in.
  const AttrProjectName: string := "org.eclipse.jdt.launching.PROJECT_ATTR"
  const AttrClasspathProvider: string := "org.eclipse.jdt.launching.CLASSPATH_PROVIDER"
  const AttrSourcePathProvider: string := "org.eclipse.jdt.launching.SOURCE_PATH_PROVIDER"
  const JavaLaunchConfigTypeId: string := "org.eclipse.jdt.launching.localJavaApplication"

  // Constants of the Boot launch delegate.
  const EnableDebugOutput: string := "spring.boot.debug.enable"
  const DefaultEnableDebugOutput: bool := false
  const M2eClasspathProvider: string := "org.eclipse.m2e.launchconfig.classpathProvider"
  const M2eSourcepathProvider: string := "org.eclipse.m2e.launchconfig.sourcepathProvider"
  const BootMavenSourcePathProvider: string := "org.springframework.ide.eclipse.boot.launch.BootMavenSourcePathProvider"
  const BootMavenClassPathProvider: string := "org.springframework.ide.eclipse.boot.launch.BootMavenClassPathProvider"

  /**
   * `getAttribute(key, (String) null)`: the string held under `key`, None when
   * there is none, and a failure when `key` holds a value of another kind.
   */
  function StringAttribute(m: map<string, Attr>, key: string): (r: Result<Option<string>, string>)
    ensures r.Failure? <==> key in m && !m[key].Str?
    ensures r.Success? ==> (r.value.Some? <==> key in m)
    ensures r.Success? && key in m ==> m[key] == Str(r.value.value)
  {
    if key !in m then Success(None)
    else if m[key].Str? then Success(Some(m[key].s))
    else Failure("Attribute " + key + " is not of type java.lang.String.")
  }

  /** `getProjectName`: the project name attribute, `""` when unset. */
  function ProjectName(m: map<string, Attr>): (r: Result<string, string>)
    ensures AttrProjectName !in m ==> r == Success("")
    ensures AttrProjectName in m && m[AttrProjectName].Str? ==> r == Success(m[AttrProjectName].s)
    ensures r.Failure? <==> AttrProjectName in m && !m[AttrProjectName].Str?
  {
    match StringAttribute(m, AttrProjectName)
    case Success(name) => Success(name.GetOr(""))
    case Failure(e) => Failure(e)
  }

  /**
   * `getEnableDebugOutput`: the boolean held under the debug-output key; the
   * default, false, when the key is unset or holds a value of another kind.
   */
  function EnableDebugOutputOf(m: map<string, Attr>): (r: bool)
    ensures r <==> EnableDebugOutput in m && m[EnableDebugOutput] == Bool(true)
  {
    if EnableDebugOutput in m && m[EnableDebugOutput].Bool? then m[EnableDebugOutput].b
    else DefaultEnableDebugOutput
  }

  /** True iff the `setAttribute` helper writes `v` under `a`: `a` holds no string equal to `v`. */
  predicate SetAttributeWrites(m: map<string, Attr>, a: string, v: string) {
    StringAttribute(m, a).Success? && StringAttribute(m, a).value != Some(v)
  }

  /** The attribute map after the `setAttribute` helper. */
  function AfterSetAttribute(m: map<string, Attr>, a: string, v: string): (r: map<string, Attr>)
    ensures StringAttribute(r, a) == Success(Some(v)) || StringAttribute(m, a).Failure?
    ensures r == m || (r.Keys == m.Keys + {a} && r[a] == Str(v))
    ensures forall k :: k != a ==> (k in r <==> k in m) && (k in m ==> r[k] == m[k])
    ensures StringAttribute(m, a).Failure? || StringAttribute(m, a) == Success(Some(v)) ==> r == m
  {
    if SetAttributeWrites(m, a, v) then m[a := Str(v)] else m
  }

  /** Repeating the `setAttribute` helper writes nothing, so it leaves a saved configuration clean. */
  lemma SetAttributeIdempotent(m: map<string, Attr>, a: string, v: string)
    ensures !SetAttributeWrites(AfterSetAttribute(m, a, v), a, v)
    ensures AfterSetAttribute(AfterSetAttribute(m, a, v), a, v) == AfterSetAttribute(m, a, v)
  {
  }

  /**
   * True iff `enableMavenClasspathProvider` adds its providers: the
   * configuration is a plain Java application whose project (named by a
   * name with text) has the m2e nature.
   */
  predicate MavenProvidersApply(m: map<string, Attr>, typeId: string,
                                hasText: string -> bool, hasM2eNature: string -> bool) {
    typeId == JavaLaunchConfigTypeId && ProjectName(m).Success?
    && hasText(ProjectName(m).value) && hasM2eNature(ProjectName(m).value)
  }

  /** A launch configuration working copy: its attribute map, and whether it has unsaved changes. */
  class WorkingCopy {
    var attrs: map<string, Attr>
    var dirty: bool

    constructor (initial: map<string, Attr>)
      ensures attrs == initial && !dirty
    {
      attrs := initial;
      dirty := false;
    }

    /** The working copy's own `setAttribute`: stores the value and marks the copy dirty. */
    method SetAttr(key: string, a: Attr)
      modifies this
      ensures attrs == old(attrs)[key := a] && dirty
    {
      attrs := attrs[key := a];
      dirty := true;
    }

    /** The working copy's own `removeAttribute`: drops the key and marks the copy dirty. */
    method RemoveAttr(key: string)
      modifies this
      ensures attrs == old(attrs) - {key} && dirty
    {
      attrs := attrs - {key};
      dirty := true;
    }

    /** `clearProperties`: removes every property attribute, over a snapshot of the keys. */
    method ClearProperties()
      modifies this
      ensures attrs == Unprefixed(old(attrs))
      ensures dirty == (old(dirty) || attrs != old(attrs))
    {
      ghost var m0 := attrs;
      ghost var d0 := dirty;
      var keys := attrs.Keys;
      while keys != {}
        invariant keys <= m0.Keys
        invariant forall k :: k in attrs <==> k in m0 && (!IsPropKey(k) || k in keys)
        invariant forall k :: k in attrs ==> attrs[k] == m0[k]
        invariant dirty == (d0 || attrs != m0)
        decreases keys
      {
        var prefixedProp :| prefixedProp in keys;
        if HasPrefix(prefixedProp, PropsPrefix) {
          assert prefixedProp in m0;
          RemoveAttr(prefixedProp);
        }
        keys := keys - {prefixedProp};
      }
      assert attrs == Unprefixed(m0);
    }

    /**
     * `setProperties`: clears the property attributes, then stores each
     * property whose name has text under a fresh oid; no list stores nothing.
     */
    method SetProperties(props: Option<seq<PropVal>>, hasText: string -> bool)
      modifies this
      ensures attrs == AfterSetProperties(old(attrs), props.GetOr([]), hasText)
      ensures dirty == (old(dirty) || Unprefixed(old(attrs)) != old(attrs) || EncodeAll(props.GetOr([]), hasText, 0) != [])
    {
      var ps := props.GetOr([]);
      ClearProperties();
      ghost var cleared := attrs;
      ghost var clearedDirty := dirty;
      ghost var written: seq<StoredProp> := [];
      var oid: nat := 0;
      var i := 0;
      assert ps[i..] == ps;
      while i < |ps|
        invariant 0 <= i <= |ps|
        invariant EncodeAll(ps, hasText, 0) == written + EncodeAll(ps[i..], hasText, oid)
        invariant attrs == StoreAll(cleared, written)
        invariant dirty == (clearedDirty || written != [])
      {
        var p := ps[i];
        WriteStep(cleared, ps, hasText, written, i, oid);
        if hasText(p.name) {
          var prefixed := PropsPrefix + p.name + [OidSeparator] + NatToString(oid);
          var valueEnabled := [if p.isChecked then '1' else '0'] + p.value;
          ghost var sp := StoredProp(p, oid);
          assert prefixed == sp.Key() && valueEnabled == sp.Value();
          SetAttr(prefixed, Str(valueEnabled));
          written := written + [sp];
          oid := oid + 1;
        }
        i := i + 1;
      }
      assert ps[i..] == [];
      assert written == EncodeAll(ps, hasText, 0);
    }

    /**
     * `getProperties`: visits the entries in `order` (the order in which the
     * map hands them out) and collects the property of each property
     * attribute, silently skipping one whose value is not a non-empty string.
     */
    method GetProperties(order: seq<string>) returns (props: seq<PropVal>)
      ensures props == Decoded(attrs, order)
    {
      props := [];
      var i := 0;
      while i < |order|
        invariant 0 <= i <= |order|
        invariant props == Decoded(attrs, order[..i])
      {
        var prefixed := order[i];
        assert order[..i + 1][..i] == order[..i];
        if prefixed in attrs && HasPrefix(prefixed, PropsPrefix) {
          var name := prefixed[|PropsPrefix|..];
          var dotPos := LastIndexOf(name, OidSeparator);
          if dotPos >= 0 {
            name := name[..dotPos];
          }
          match attrs[prefixed]
          case Str(valueEnablement) =>
            if |valueEnablement| > 0 {
              var value := valueEnablement[1..];
              var enabled := valueEnablement[0] == '1';
              props := props + [PropVal(name, value, enabled)];
            }
          case _ =>
        }
        i := i + 1;
      }
      assert order[..i] == order;
    }

    /** The `setAttribute` helper: writes only when the value differs, so an equal value leaves the copy clean. */
    method SetAttribute(a: string, v: string)
      modifies this
      ensures attrs == AfterSetAttribute(old(attrs), a, v)
      ensures dirty == (old(dirty) || SetAttributeWrites(old(attrs), a, v))
    {
      var current := StringAttribute(attrs, a);
      if current.Success? && current.value != Some(v) {
        SetAttr(a, Str(v));
      }
    }

    /** `enableClasspathProviders`: points both providers at the Boot Maven providers. */
    method EnableClasspathProviders()
      modifies this
      ensures attrs == AfterSetAttribute(AfterSetAttribute(old(attrs), AttrSourcePathProvider, BootMavenSourcePathProvider),
                                         AttrClasspathProvider, BootMavenClassPathProvider)
      ensures dirty == (old(dirty) || attrs != old(attrs))
    {
      SetAttribute(AttrSourcePathProvider, BootMavenSourcePathProvider);
      SetAttribute(AttrClasspathProvider, BootMavenClassPathProvider);
    }

    /**
     * `enableMavenClasspathProvider`, attribute part: for a plain Java
     * application of an m2e project, adds the m2e providers where no
     * provider attribute is present; a present one is never overwritten.
     */
    method EnableMavenClasspathProvider(typeId: string, hasText: string -> bool, hasM2eNature: string -> bool)
      modifies this
      ensures forall k :: k in old(attrs) ==> k in attrs && attrs[k] == old(attrs)[k]
      ensures forall k :: k in attrs && k !in old(attrs) ==> k == AttrClasspathProvider || k == AttrSourcePathProvider
      ensures MavenProvidersApply(old(attrs), typeId, hasText, hasM2eNature) ==>
        AttrClasspathProvider in attrs && AttrSourcePathProvider in attrs
        && (AttrClasspathProvider !in old(attrs) ==> attrs[AttrClasspathProvider] == Str(M2eClasspathProvider))
        && (AttrSourcePathProvider !in old(attrs) ==> attrs[AttrSourcePathProvider] == Str(M2eSourcepathProvider))
      ensures !MavenProvidersApply(old(attrs), typeId, hasText, hasM2eNature) ==> attrs == old(attrs) && dirty == old(dirty)
      ensures dirty == (old(dirty) || attrs != old(attrs))
    {
      if typeId == JavaLaunchConfigTypeId {
        var pname := ProjectName(attrs);
        if pname.Success? && hasText(pname.value) && hasM2eNature(pname.value) {
          if AttrClasspathProvider !in attrs {
            SetAttr(AttrClasspathProvider, Str(M2eClasspathProvider));
          }
          if AttrSourcePathProvider !in attrs {
            SetAttr(AttrSourcePathProvider, Str(M2eSourcepathProvider));
          }
        }
      }
    }

    /** `setProject`: no project removes the project name attribute, which then reads as `""`. */
    method SetProject(project: Option<string>)
      modifies this
      ensures attrs == if project.None? then old(attrs) - {AttrProjectName}
                       else old(attrs)[AttrProjectName := Str(project.value)]
      ensures ProjectName(attrs) == Success(project.GetOr(""))
      ensures dirty
    {
      if project.None? {
        RemoveAttr(AttrProjectName);
      } else {
        SetAttr(AttrProjectName, Str(project.value));
      }
    }

    /** `setEnableDebugOutput`: stores the flag, which `getEnableDebugOutput` then reads back. */
    method SetEnableDebugOutput(enable: bool)
      modifies this
      ensures attrs == old(attrs)[EnableDebugOutput := Bool(enable)]
      ensures EnableDebugOutputOf(attrs) == enable
      ensures dirty
    {
      SetAttr(EnableDebugOutput, Bool(enable));
    }
  }
}
