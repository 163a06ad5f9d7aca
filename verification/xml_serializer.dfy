/** KleerXmlSerializer: schema overrides for "Redefinition" types, computed
    once per assembly, and one serializer per root type, built on first use
    and reused afterwards. Reflection is replaced by explicit values: an
    assembly is the sequence of its types, and each type lists the targets
    of the XmlInclude attributes declared directly on it. */
module XmlSerialization {
  import opened Errors
  import opened Text

  type AssemblyName = string

  /** A type's identity. Two distinct types may share a short `name`. */
  datatype TypeRef = TypeRef(assembly: AssemblyName, fullName: string, name: string)

  /** A type declared in an assembly and the targets of its own
      `[XmlInclude(...)]` attributes, in declaration order; inherited
      attributes are not listed. */
  datatype TypeDecl = TypeDecl(self: TypeRef, includes: seq<TypeRef>)

  /** An assembly as `GetTypes` enumerates it. */
  datatype Assembly = Assembly(name: AssemblyName, types: seq<TypeDecl>)

  /** XmlAttributeOverrides restricted to what the core sets: the XmlType
      name given to each overridden type. */
  type Overrides = map<TypeRef, string>

  const Marker := "Redefinition"
  const Replacement := "_redef"

  /** The include targets that get an override: ordinal suffix test. */
  predicate IsRedefinition(t: TypeRef) {
    EndsWith(t.name, Marker)
  }

  /** The schema name an overridden type is exposed under. */
  function SchemaName(t: TypeRef): string {
    Replace(t.name, Marker, Replacement)
  }

  function ElementsOf<T>(s: seq<T>): set<T> {
    set x | x in s
  }

  /** No element of `s` occurs twice. */
  ghost predicate Distinct<T>(s: seq<T>) {
    forall i, j :: 0 <= i < j < |s| ==> s[i] != s[j]
  }

  lemma AppendNew<T>(s: seq<T>, x: T)
    requires Distinct(s) && x !in ElementsOf(s)
    ensures Distinct(s + [x]) && ElementsOf(s + [x]) == ElementsOf(s) + {x}
  {
    assert forall i :: 0 <= i < |s| ==> (s + [x])[i] == s[i];
  }

  /** Every type that some type of `types` includes directly. */
  function IncludedBy(types: seq<TypeDecl>): set<TypeRef>
    decreases |types|
  {
    if types == [] then {}
    else IncludedBy(types[..|types| - 1]) + ElementsOf(types[|types| - 1].includes)
  }

  /** The override set a collection of included types gives rise to. */
  function Registered(included: set<TypeRef>): Overrides {
    map t | t in included && IsRedefinition(t) :: SchemaName(t)
  }

  /** The override set of an assembly: what BuildOverrides computes. */
  function OverridesOf(asm: Assembly): Overrides {
    Registered(IncludedBy(asm.types))
  }

  // ---------------------------------------------------------------------
  // BuildOverrides

  /** XmlAttributeOverrides.Add(type, attributes): the library throws when
      the same type is registered twice, so a caller must not do that. */
  function AddOverride(overrides: Overrides, t: TypeRef, schemaName: string): (r: Overrides)
    requires t !in overrides
    ensures r.Keys == overrides.Keys + {t} && r[t] == schemaName
    ensures forall u :: u in overrides ==> r[u] == overrides[u]
  {
    overrides[t := schemaName]
  }

  /** One more include: the override set gains the target exactly when
      it is a "Redefinition" type not registered yet. */
  lemma IncludeStep(before: set<TypeRef>, includes: seq<TypeRef>, j: nat)
    requires j < |includes|
    ensures var done := Registered(before + ElementsOf(includes[..j]));
            var t := includes[j];
            Registered(before + ElementsOf(includes[..j + 1])) ==
              if IsRedefinition(t) && t !in done then done[t := SchemaName(t)] else done
  {
    var t := includes[j];
    assert includes[..j + 1] == includes[..j] + [t];
    assert ElementsOf(includes[..j + 1]) == ElementsOf(includes[..j]) + {t};
    var x := before + ElementsOf(includes[..j]);
    assert before + ElementsOf(includes[..j + 1]) == x + {t};
    var done := Registered(x);
    if IsRedefinition(t) && t in done {
      assert Registered(x + {t}) == done;
    }
  }

  /** One more type: its includes join the included set. */
  lemma TypeStep(types: seq<TypeDecl>, i: nat)
    requires i < |types|
    ensures IncludedBy(types[..i + 1]) == IncludedBy(types[..i]) + ElementsOf(types[i].includes)
  {
    assert types[..i + 1][..i] == types[..i];
  }

  /** Walks every type and every include in enumeration order; a
      processed set keeps each target from being registered twice. */
  method BuildOverrides(asm: Assembly) returns (overrides: Overrides)
    ensures overrides == OverridesOf(asm)
  {
    overrides := map[];
    var processed: set<TypeRef> := {};
    for i := 0 to |asm.types|
      invariant processed == overrides.Keys
      invariant overrides == Registered(IncludedBy(asm.types[..i]))
    {
      var includes := asm.types[i].includes;
      ghost var before := IncludedBy(asm.types[..i]);
      for j := 0 to |includes|
        invariant processed == overrides.Keys
        invariant overrides == Registered(before + ElementsOf(includes[..j]))
      {
        var incType := includes[j];
        IncludeStep(before, includes, j);
        if !EndsWith(incType.name, Marker) {
          continue;
        }
        // HashSet.Add: true exactly when the element was not there yet.
        var added := incType !in processed;
        processed := processed + {incType};
        if !added {
          continue;
        }
        overrides := AddOverride(overrides, incType, SchemaName(incType));
      }
      assert includes[..|includes|] == includes;
      TypeStep(asm.types, i);
    }
    assert asm.types[..|asm.types|] == asm.types;
  }

  // ---------------------------------------------------------------------
  // What the override set contains

  /** A type is in the included set exactly when some type lists it. */
  lemma {:induction false} IncludedByMembers(types: seq<TypeDecl>, t: TypeRef)
    ensures t in IncludedBy(types) <==> exists i :: 0 <= i < |types| && t in types[i].includes
    decreases |types|
  {
    if types != [] {
      var n := |types| - 1;
      IncludedByMembers(types[..n], t);
      if t in IncludedBy(types) {
        if t !in ElementsOf(types[n].includes) {
          var i :| 0 <= i < n && t in types[..n][i].includes;
          assert t in types[i].includes;
        }
      } else {
        forall i | 0 <= i < |types|
          ensures t !in types[i].includes
        {
          if i < n {
            assert types[..n][i] == types[i];
          }
        }
      }
    }
  }

  /** Selection: an override exists for exactly the included types whose
      name ends with "Redefinition", and its value is the renamed name. */
  lemma OverridesSelection(asm: Assembly, t: TypeRef)
    ensures t in OverridesOf(asm) <==>
            (exists d :: d in asm.types && t in d.includes) && EndsWith(t.name, Marker)
    ensures t in OverridesOf(asm) ==> OverridesOf(asm)[t] == Replace(t.name, "Redefinition", "_redef")
  {
    IncludedByMembers(asm.types, t);
    if exists d :: d in asm.types && t in d.includes {
      var d :| d in asm.types && t in d.includes;
      var i :| 0 <= i < |asm.types| && asm.types[i] == d;
    }
  }

  /** A "Redefinition" type that no type of the assembly includes gets no
      override, even when the assembly declares it. */
  lemma NotIncludedNotRenamed(asm: Assembly, t: TypeRef)
    requires forall d :: d in asm.types ==> t !in d.includes
    ensures t !in OverridesOf(asm)
  {
    OverridesSelection(asm, t);
  }

  /** The order in which GetTypes enumerates types does not matter. */
  lemma TypeOrderIrrelevant(a: Assembly, b: Assembly)
    requires multiset(a.types) == multiset(b.types)
    ensures OverridesOf(a) == OverridesOf(b)
  {
    forall t
      ensures t in IncludedBy(a.types) <==> t in IncludedBy(b.types)
    {
      IncludedByMembers(a.types, t);
      IncludedByMembers(b.types, t);
      if t in IncludedBy(a.types) {
        var i :| 0 <= i < |a.types| && t in a.types[i].includes;
        assert a.types[i] in multiset(b.types);
        var k :| 0 <= k < |b.types| && b.types[k] == a.types[i];
      }
      if t in IncludedBy(b.types) {
        var i :| 0 <= i < |b.types| && t in b.types[i].includes;
        assert b.types[i] in multiset(a.types);
        var k :| 0 <= k < |a.types| && a.types[k] == b.types[i];
      }
    }
    assert IncludedBy(a.types) == IncludedBy(b.types);
  }

  /** The order of a type's include attributes, and repeated includes of
      the same target, do not matter either. */
  lemma IncludeOrderIrrelevant(asm: Assembly, k: nat, reordered: seq<TypeRef>)
    requires k < |asm.types|
    requires ElementsOf(reordered) == ElementsOf(asm.types[k].includes)
    ensures OverridesOf(asm.(types := asm.types[k := asm.types[k].(includes := reordered)])) == OverridesOf(asm)
  {
    var types' := asm.types[k := asm.types[k].(includes := reordered)];
    forall t
      ensures t in IncludedBy(types') <==> t in IncludedBy(asm.types)
    {
      IncludedByMembers(types', t);
      IncludedByMembers(asm.types, t);
      if t in IncludedBy(types') {
        var i :| 0 <= i < |types'| && t in types'[i].includes;
        if i == k {
          assert t in ElementsOf(reordered);
          assert t in asm.types[k].includes;
        } else {
          assert types'[i] == asm.types[i];
          assert t in asm.types[i].includes;
        }
      }
      if t in IncludedBy(asm.types) {
        var i :| 0 <= i < |asm.types| && t in asm.types[i].includes;
        if i == k {
          assert t in ElementsOf(asm.types[k].includes);
          assert t in types'[k].includes;
        } else {
          assert types'[i] == asm.types[i];
          assert t in types'[i].includes;
        }
      }
    }
    assert IncludedBy(types') == IncludedBy(asm.types);
  }

  // ---------------------------------------------------------------------
  // The renaming rule

  /** A name whose only "Redefinition" is its suffix loses the suffix and
      gains "_redef". */
  lemma RenameSuffix(t: TypeRef)
    requires IsRedefinition(t)
    requires forall i :: 0 <= i < |t.name| - |Marker| ==> !OccursAt(t.name, Marker, i)
    ensures SchemaName(t) == t.name[..|t.name| - |Marker|] + Replacement
  {
    ReplaceSoleSuffix(t.name, Marker, Replacement);
  }

  /** The example of the naming rule: WidgetRedefinition -> Widget_redef. */
  lemma RenameWidget(t: TypeRef)
    requires t.name == "WidgetRedefinition"
    ensures IsRedefinition(t)
    ensures SchemaName(t) == "Widget_redef"
  {
    forall i | 0 <= i < |t.name| - |Marker|
      ensures !OccursAt(t.name, Marker, i)
    {
      assert t.name[i] != Marker[0];
    }
    assert t.name == "Widget" + Marker;
    RenameSuffix(t);
    assert t.name[..|t.name| - |Marker|] == "Widget";
  }

  /** Replace rewrites every occurrence, not only the suffix: a name
      that starts and ends with "Redefinition" has both replaced. */
  lemma RenameEveryOccurrence(t: TypeRef, middle: string)
    requires t.name == Marker + middle + Marker
    requires forall i :: 0 <= i < |middle| ==> !OccursAt(middle + Marker, Marker, i)
    ensures SchemaName(t) == Replacement + middle + Replacement
  {
    var rest := middle + Marker;
    assert t.name == Marker + rest;
    assert t.name[..|Marker|] == Marker && t.name[|Marker|..] == rest;
    assert rest[..|rest| - |Marker|] == middle;
    ReplaceSoleSuffix(rest, Marker, Replacement);
  }

  /** After renaming, "Redefinition" occurs nowhere in the schema name. */
  lemma RenameRemovesEveryMarker(t: TypeRef, i: nat)
    ensures !OccursAt(SchemaName(t), Marker, i)
  {
    assert forall k :: 0 <= k < |Replacement| ==> Replacement[k] != Marker[0];
    assert forall k :: 0 <= k < |Marker| ==> Marker[k] != Replacement[0];
    ReplaceRemovesEvery(t.name, Marker, Replacement, i);
  }

  /** The rename can give two distinct types one schema name: two types
      called `WidgetRedefinition` in different namespaces, both included
      by the assembly, are both exposed as `Widget_redef` in the empty
      namespace, a pair XmlSerializer's constructor rejects when both
      are reachable from its root type. */
  lemma SchemaNameCollides(asm: Assembly, d: TypeDecl, a: TypeRef, b: TypeRef)
    requires a != b && a.name == b.name == "WidgetRedefinition"
    requires d in asm.types && a in d.includes && b in d.includes
    ensures a in OverridesOf(asm) && b in OverridesOf(asm)
    ensures OverridesOf(asm)[a] == OverridesOf(asm)[b] == "Widget_redef"
  {
    RenameWidget(a);
    RenameWidget(b);
    OverridesSelection(asm, a);
    OverridesSelection(asm, b);
  }

  // ---------------------------------------------------------------------
  // The caches

  /** An XmlSerializer bound to its root type and the override set it was
      built with. Reading and writing XML stay with the library. */
  class Serializer {
    const root: TypeRef
    const overrides: Overrides

    constructor (root: TypeRef, overrides: Overrides)
      ensures this.root == root && this.overrides == overrides
    {
      this.root := root;
      this.overrides := overrides;
    }
  }

  /** The XmlWriterSettings and namespaces Serialize writes with. */
  datatype WriterSettings = WriterSettings(
    omitXmlDeclaration: bool,
    byteOrderMark: bool,
    indent: bool,
    namespaces: map<string, string>)

  const OutputSettings := WriterSettings(true, false, false, map["" := ""])

  /** The process-wide state of the static class KleerXmlSerializer: the
      override set per assembly and the serializer per root type. The
      loaded assemblies, which reflection would report, are fixed. Two
      ghost logs record every build, so that "at most once" can be said. */
  class KleerXmlSerializer {
    const assemblies: map<AssemblyName, Assembly>
    var overridesCache: map<AssemblyName, Overrides>
    var serializerCache: map<TypeRef, Serializer>
    ghost var overrideBuilds: seq<AssemblyName>
    ghost var serializerBuilds: seq<TypeRef>

    ghost predicate Valid()
      reads this
    {
      && (forall a :: a in assemblies ==> assemblies[a].name == a)
      && overridesCache.Keys <= assemblies.Keys
      && (forall a :: a in overridesCache ==> overridesCache[a] == OverridesOf(assemblies[a]))
      && (forall t :: t in serializerCache ==>
            && serializerCache[t].root == t
            && t.assembly in overridesCache
            && serializerCache[t].overrides == overridesCache[t.assembly])
      && Distinct(overrideBuilds) && ElementsOf(overrideBuilds) == overridesCache.Keys
      && Distinct(serializerBuilds) && ElementsOf(serializerBuilds) == serializerCache.Keys
    }

    /** The caches start empty. */
    constructor (assemblies: map<AssemblyName, Assembly>)
      requires forall a :: a in assemblies ==> assemblies[a].name == a
      ensures Valid()
      ensures this.assemblies == assemblies
      ensures overridesCache == map[] && serializerCache == map[]
    {
      this.assemblies := assemblies;
      overridesCache := map[];
      serializerCache := map[];
      overrideBuilds := [];
      serializerBuilds := [];
    }

    /** The state after a get-or-add of `t`: `t` is present, an entry that
        was there is kept, no other key changes, and the override set of
        `t`'s assembly is cached. */
    twostate predicate GotOrAdded(t: TypeRef)
      reads this
    {
      && t in serializerCache
      && serializerCache == old(serializerCache)[t := serializerCache[t]]
      && (t in old(serializerCache) ==> serializerCache[t] == old(serializerCache)[t])
      && t.assembly in assemblies
      && overridesCache == old(overridesCache)[t.assembly := OverridesOf(assemblies[t.assembly])]
    }

    /** OverridesCache.GetOrAdd(assembly, BuildOverrides). */
    method OverridesFor(a: AssemblyName) returns (overrides: Overrides)
      requires Valid() && a in assemblies
      modifies this`overridesCache, this`overrideBuilds
      ensures Valid()
      ensures overrides == OverridesOf(assemblies[a])
      ensures overridesCache == old(overridesCache)[a := overrides]
      ensures overrideBuilds == old(overrideBuilds) + if a in old(overridesCache) then [] else [a]
    {
      if a in overridesCache {
        overrides := overridesCache[a];
      } else {
        overrides := BuildOverrides(assemblies[a]);
        AppendNew(overrideBuilds, a);
        overridesCache := overridesCache[a := overrides];
        overrideBuilds := overrideBuilds + [a];
      }
    }

    /** Create<T>(): SerializerCache.GetOrAdd(typeof(T), ...), the factory
        building a serializer from the cached overrides of T's assembly. */
    method Create(t: TypeRef) returns (s: Serializer)
      requires Valid() && t.assembly in assemblies
      modifies this
      ensures Valid() && GotOrAdded(t)
      ensures s == serializerCache[t]
      ensures s.root == t && s.overrides == OverridesOf(assemblies[t.assembly])
      ensures t in old(serializerCache) ==> unchanged(this)
      ensures t !in old(serializerCache) ==> fresh(s)
      ensures serializerBuilds == old(serializerBuilds) + if t in old(serializerCache) then [] else [t]
      ensures overrideBuilds ==
              old(overrideBuilds) + if t.assembly in old(overridesCache) then [] else [t.assembly]
    {
      if t in serializerCache {
        s := serializerCache[t];
        assert serializerCache[t := s] == serializerCache;
        assert overridesCache[t.assembly := OverridesOf(assemblies[t.assembly])] == overridesCache;
        return;
      }
      var overrides := OverridesFor(t.assembly);
      s := new Serializer(t, overrides);
      AppendNew(serializerBuilds, t);
      serializerCache := serializerCache[t := s];
      serializerBuilds := serializerBuilds + [t];
    }

    /** Deserialize<T>(xml): the serializer for T reads `xml`. The reader
        is the library's and is a parameter; a null text is rejected by
        the StringReader, after the serializer has been fetched. */
    method Deserialize<V>(t: TypeRef, xml: Option<string>, read: (Serializer, string) -> Result<V>)
      returns (r: Result<V>)
      requires Valid() && t.assembly in assemblies
      modifies this
      ensures Valid() && GotOrAdded(t)
      ensures xml.None? ==> r == Failure(ArgumentNull("s"))
      ensures xml.Some? ==> r == read(serializerCache[t], xml.value)
    {
      var serializer := Create(t);
      if xml.None? {
        return Failure(ArgumentNull("s"));
      }
      r := read(serializer, xml.value);
    }

    /** Serialize<T>(obj): null is rejected before any cache is consulted;
        otherwise the serializer for T writes `obj` with the fixed output
        settings. The writer is the library's and is a parameter. */
    method Serialize<V>(t: TypeRef, obj: Option<V>, write: (Serializer, WriterSettings, V) -> string)
      returns (r: Result<string>)
      requires Valid() && t.assembly in assemblies
      modifies this
      ensures Valid()
      ensures obj.None? ==> r == Failure(ArgumentNull("obj")) && unchanged(this)
      ensures obj.Some? ==> GotOrAdded(t) && r == Success(write(serializerCache[t], OutputSettings, obj.value))
    {
      if obj.None? {
        return Failure(ArgumentNull("obj"));
      }
      var serializer := Create(t);
      r := Success(write(serializer, OutputSettings, obj.value));
    }
  }

  /** Every type of one assembly is bound to one and the same override set. */
  lemma SharedOverrides(c: KleerXmlSerializer, t: TypeRef, u: TypeRef)
    requires c.Valid()
    requires t in c.serializerCache && u in c.serializerCache && t.assembly == u.assembly
    ensures c.serializerCache[t].overrides == c.serializerCache[u].overrides
    ensures c.serializerCache[t].overrides == OverridesOf(c.assemblies[t.assembly])
  {
  }
}
