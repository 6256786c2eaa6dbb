/** The entity-type column maps (RelationalExtensions.GetColumns and GetValueConverters): property path to column
    name, and column name to value converter, with the properties of owned navigations flattened under the
    navigation's name. The entity metadata is given as data. */
module ColumnMap {
  import opened Wrappers
  import opened Enumerable

  /** A value converter; converters are compared by identity. */
  datatype Converter = Converter(id: nat)

  datatype Property = Property(name: string, columnName: string, converter: Option<Converter>)

  /** A navigation: the name of its CLR property, whether it has one (a navigation backed only by a field has a null
      PropertyInfo), whether its target type is owned, and the target's properties. */
  datatype Navigation = Navigation(name: string, hasClrProperty: bool, targetIsOwned: bool, targetProperties: seq<Property>)

  datatype EntityType = EntityType(properties: seq<Property>, navigations: seq<Navigation>)

  /** The key an owned property gets: the navigation's name, a dot, and the property's name. */
  function OwnedKey(nav: Navigation, col: Property): string
  {
    nav.name + "." + col.name
  }

  // ---------------------------------------------------------------------------------------------
  // GetColumns

  /** `(p.Name, p.GetColumnName())` for every scalar property, in order. */
  function ScalarEntries(props: seq<Property>): (r: seq<(string, string)>)
    ensures |r| == |props|
    ensures forall i | 0 <= i < |props| :: r[i] == (props[i].name, props[i].columnName)
  {
    if |props| == 0 then []
    else ScalarEntries(props[..|props| - 1]) + [(props[|props| - 1].name, props[|props| - 1].columnName)]
  }

  /** The entries of one navigation: none unless its target is owned. */
  function NavigationEntries(nav: Navigation): seq<(string, string)>
  {
    if nav.targetIsOwned then
      seq(|nav.targetProperties|, i requires 0 <= i < |nav.targetProperties| =>
        (OwnedKey(nav, nav.targetProperties[i]), nav.targetProperties[i].columnName))
    else []
  }

  /** The owned entries, navigation by navigation. */
  function OwnedEntries(navs: seq<Navigation>): seq<(string, string)>
  {
    if |navs| == 0 then [] else OwnedEntries(navs[..|navs| - 1]) + NavigationEntries(navs[|navs| - 1])
  }

  /** `normalProps.Concat(ownerProps)`. */
  function ColumnEntries(e: EntityType): seq<(string, string)>
  {
    ScalarEntries(e.properties) + OwnedEntries(e.navigations)
  }

  /** GetColumns reads the PropertyInfo's name once per property of an owned target. Without a CLR property the
      first such read throws NullReferenceException; an owned target without properties is never read. */
  predicate Throws(nav: Navigation)
  {
    nav.targetIsOwned && !nav.hasClrProperty && |nav.targetProperties| > 0
  }

  predicate AnyThrows(navs: seq<Navigation>)
  {
    exists i | 0 <= i < |navs| :: Throws(navs[i])
  }

  /** Navigation k is the first that throws. */
  predicate FirstThrowAt(navs: seq<Navigation>, k: nat)
  {
    k < |navs| && Throws(navs[k]) && forall i | 0 <= i < k :: !Throws(navs[i])
  }

  /** The lazy enumeration of the owned entries, as ToDictionary pulls them: the entries produced before a
      navigation throws, and whether one did. */
  function OwnedEnumeration(navs: seq<Navigation>): (seq<(string, string)>, bool)
  {
    if |navs| == 0 then ([], false)
    else
      var front := OwnedEnumeration(navs[..|navs| - 1]);
      var last := navs[|navs| - 1];
      if front.1 then front
      else if Throws(last) then (front.0, true)
      else (front.0 + NavigationEntries(last), false)
  }

  /** The enumeration throws iff some navigation does. Without one it yields every owned entry; otherwise it stops
      at the first throwing navigation, after the entries of the navigations before it. */
  lemma {:induction false} OwnedEnumerationStops(navs: seq<Navigation>)
    ensures OwnedEnumeration(navs).1 <==> AnyThrows(navs)
    ensures !AnyThrows(navs) ==> OwnedEnumeration(navs).0 == OwnedEntries(navs)
    ensures forall k: nat | FirstThrowAt(navs, k) :: OwnedEnumeration(navs).0 == OwnedEntries(navs[..k])
  {
    if |navs| > 0 {
      var front, last := navs[..|navs| - 1], navs[|navs| - 1];
      OwnedEnumerationStops(front);
      assert forall i | 0 <= i < |front| :: front[i] == navs[i];
      if AnyThrows(front) {
        var i :| 0 <= i < |front| && Throws(front[i]);
        assert Throws(navs[i]);
      }
      forall k: nat | FirstThrowAt(navs, k)
        ensures OwnedEnumeration(navs).0 == OwnedEntries(navs[..k])
      {
        if k < |front| {
          assert FirstThrowAt(front, k);
          assert front[..k] == navs[..k];
        } else {
          assert !AnyThrows(front);
          assert navs[..k] == front;
        }
      }
    }
  }

  /** The entries ToDictionary receives before navigation k throws. */
  function EntriesBefore(e: EntityType, k: nat): seq<(string, string)>
    requires k <= |e.navigations|
  {
    ScalarEntries(e.properties) + OwnedEntries(e.navigations[..k])
  }

  /** What GetColumns promises: key `k` names column `c`, through a scalar property or an owned one. */
  ghost predicate ColumnOf(e: EntityType, k: string, c: string)
  {
    || (exists p | p in e.properties :: p.name == k && p.columnName == c)
    || (exists nav, col | nav in e.navigations && nav.targetIsOwned && col in nav.targetProperties ::
          OwnedKey(nav, col) == k && col.columnName == c)
  }

  ghost function ScalarKeys(e: EntityType): set<string>
  {
    set p | p in e.properties :: p.name
  }

  ghost function OwnedKeys(e: EntityType): set<string>
  {
    set nav, col | nav in e.navigations && nav.targetIsOwned && col in nav.targetProperties :: OwnedKey(nav, col)
  }

  /** Every owned entry comes from an owned navigation, and every property of an owned navigation has its entry. */
  lemma {:induction false} OwnedEntriesMembers(navs: seq<Navigation>)
    ensures forall en | en in OwnedEntries(navs) ::
      exists nav, col | nav in navs && nav.targetIsOwned && col in nav.targetProperties ::
        en == (OwnedKey(nav, col), col.columnName)
    ensures forall nav, col | nav in navs && nav.targetIsOwned && col in nav.targetProperties ::
      (OwnedKey(nav, col), col.columnName) in OwnedEntries(navs)
  {
    if |navs| > 0 {
      var front, last := navs[..|navs| - 1], navs[|navs| - 1];
      OwnedEntriesMembers(front);
      assert navs == front + [last];
      assert OwnedEntries(navs) == OwnedEntries(front) + NavigationEntries(last);
      forall en | en in NavigationEntries(last)
        ensures exists nav, col | nav in navs && nav.targetIsOwned && col in nav.targetProperties ::
          en == (OwnedKey(nav, col), col.columnName)
      {
        var i :| 0 <= i < |NavigationEntries(last)| && NavigationEntries(last)[i] == en;
        assert last.targetProperties[i] in last.targetProperties;
      }
      forall nav, col | nav in navs && nav.targetIsOwned && col in nav.targetProperties
        ensures (OwnedKey(nav, col), col.columnName) in OwnedEntries(navs)
      {
        if nav !in front {
          assert nav == last;
          var i :| 0 <= i < |last.targetProperties| && last.targetProperties[i] == col;
          assert NavigationEntries(last)[i] == (OwnedKey(nav, col), col.columnName);
        }
      }
    }
  }

  /** An entry of the concatenation is exactly a pair GetColumns promises. */
  lemma ColumnEntriesMembers(e: EntityType)
    ensures forall en | en in ColumnEntries(e) :: ColumnOf(e, en.0, en.1)
    ensures forall k, c | ColumnOf(e, k, c) :: (k, c) in ColumnEntries(e)
  {
    OwnedEntriesMembers(e.navigations);
    var scalar := ScalarEntries(e.properties);
    forall en | en in ColumnEntries(e)
      ensures ColumnOf(e, en.0, en.1)
    {
      if en in scalar {
        var i :| 0 <= i < |scalar| && scalar[i] == en;
        assert e.properties[i] in e.properties;
      }
    }
    forall k, c | ColumnOf(e, k, c)
      ensures (k, c) in ColumnEntries(e)
    {
      if p :| p in e.properties && p.name == k && p.columnName == c {
        var i :| 0 <= i < |e.properties| && e.properties[i] == p;
        assert scalar[i] == (k, c);
      }
    }
  }

  /** GetColumns: fails exactly when two entries share a key or an owned navigation without a CLR property is read;
      whichever comes first in the enumeration decides the exception. Otherwise the map holds each scalar property
      under its name and each property of an owned navigation under "navigation.property", and nothing else. */
  function GetColumns(e: EntityType): (r: Result<map<string, string>, Exception>)
    ensures r.Ok? <==> !AnyThrows(e.navigations) && DistinctKeys(ColumnEntries(e))
    ensures !AnyThrows(e.navigations) && r.Err? ==> DuplicateKeyError(ColumnEntries(e), r.error)
    ensures forall k: nat | FirstThrowAt(e.navigations, k) ::
      && r.Err?
      && (if DistinctKeys(EntriesBefore(e, k)) then r.error == NullReference
          else DuplicateKeyError(EntriesBefore(e, k), r.error))
    ensures r.Ok? ==> forall k, c | ColumnOf(e, k, c) :: k in r.value && r.value[k] == c
    ensures r.Ok? ==> forall k | k in r.value :: ColumnOf(e, k, r.value[k])
    ensures r.Ok? ==> r.value.Keys == ScalarKeys(e) + OwnedKeys(e)
  {
    ColumnEntriesMembers(e);
    ColumnKeys(e);
    OwnedEnumerationStops(e.navigations);
    var entries := ScalarEntries(e.properties) + OwnedEnumeration(e.navigations).0;
    var r := ToDictionary(entries);
    if r.Err? then r
    else if OwnedEnumeration(e.navigations).1 then Err(NullReference)
    else ToDictionaryMembers(entries); r
  }

  /** The keys GetColumns promises are exactly the scalar names and the owned paths. */
  lemma ColumnKeys(e: EntityType)
    ensures forall k :: (exists c :: ColumnOf(e, k, c)) <==> k in ScalarKeys(e) + OwnedKeys(e)
  {
    forall k | k in ScalarKeys(e) + OwnedKeys(e)
      ensures exists c :: ColumnOf(e, k, c)
    {
      if k in ScalarKeys(e) {
        var p :| p in e.properties && p.name == k;
        assert ColumnOf(e, k, p.columnName);
      } else {
        var nav, col :| nav in e.navigations && nav.targetIsOwned && col in nav.targetProperties && OwnedKey(nav, col) == k;
        assert ColumnOf(e, k, col.columnName);
      }
    }
  }

  /** A navigation whose target is not owned adds nothing to the column map. */
  lemma NonOwnedNavigationIgnored(e: EntityType, nav: Navigation)
    requires !nav.targetIsOwned
    ensures GetColumns(EntityType(e.properties, e.navigations + [nav])) == GetColumns(e)
  {
    var navs := e.navigations + [nav];
    assert navs[..|navs| - 1] == e.navigations;
    assert OwnedEntries(navs) == OwnedEntries(e.navigations);
    var front := OwnedEnumeration(e.navigations);
    assert NavigationEntries(nav) == [] && front.0 + [] == front.0;
    assert OwnedEnumeration(navs) == front;
  }

  /** An owned navigation backed only by a field throws as soon as its first property is read. */
  lemma FieldOnlyOwnedNavigationThrows(nav: Navigation)
    requires Throws(nav)
    ensures GetColumns(EntityType([], [nav])) == Err(NullReference)
  {
    assert FirstThrowAt([nav], 0);
    assert EntriesBefore(EntityType([], [nav]), 0) == [];
  }

  /** A scalar property named like an owned path collides with it. */
  lemma ScalarShadowingOwnedPathFails(address: Navigation, street: Property, column: string)
    requires address.targetIsOwned && address.targetProperties == [street]
    ensures GetColumns(EntityType([Property(OwnedKey(address, street), column, None)], [address])).Err?
  {
    var e := EntityType([Property(OwnedKey(address, street), column, None)], [address]);
    assert [address][..0] == [];
    assert OwnedEntries(e.navigations) == NavigationEntries(address) == [(OwnedKey(address, street), street.columnName)];
    assert ColumnEntries(e)[0].0 == ColumnEntries(e)[1].0;
  }

  // ---------------------------------------------------------------------------------------------
  // GetValueConverters

  /** `(p.GetColumnName(), conv)` for every property whose converter is not null, in order. */
  function PropertyConverters(props: seq<Property>): (r: seq<(string, Converter)>)
    ensures forall en | en in r :: exists p | p in props :: p.columnName == en.0 && p.converter == Some(en.1)
    ensures forall p | p in props && p.converter.Some? :: (p.columnName, p.converter.value) in r
  {
    if |props| == 0 then []
    else
      var front, last := props[..|props| - 1], props[|props| - 1];
      assert props == front + [last];
      PropertyConverters(front) + (if last.converter.Some? then [(last.columnName, last.converter.value)] else [])
  }

  /** The converter entries of owned navigations, navigation by navigation. */
  function OwnedConverters(navs: seq<Navigation>): (r: seq<(string, Converter)>)
    ensures forall en | en in r :: exists nav, p | nav in navs && nav.targetIsOwned && p in nav.targetProperties ::
      p.columnName == en.0 && p.converter == Some(en.1)
    ensures forall nav, p | nav in navs && nav.targetIsOwned && p in nav.targetProperties && p.converter.Some? ::
      (p.columnName, p.converter.value) in r
  {
    if |navs| == 0 then []
    else
      var front, last := navs[..|navs| - 1], navs[|navs| - 1];
      assert navs == front + [last];
      OwnedConverters(front) + (if last.targetIsOwned then PropertyConverters(last.targetProperties) else [])
  }

  function ConverterEntries(e: EntityType): seq<(string, Converter)>
  {
    PropertyConverters(e.properties) + OwnedConverters(e.navigations)
  }

  /** What GetValueConverters promises: column `c` is stored through a property (scalar or owned) with converter `v`. */
  ghost predicate HasConverter(e: EntityType, c: string, v: Converter)
  {
    || (exists p | p in e.properties :: p.columnName == c && p.converter == Some(v))
    || (exists nav, p | nav in e.navigations && nav.targetIsOwned && p in nav.targetProperties ::
          p.columnName == c && p.converter == Some(v))
  }

  lemma ConverterEntriesMembers(e: EntityType)
    ensures forall en | en in ConverterEntries(e) :: HasConverter(e, en.0, en.1)
    ensures forall c, v | HasConverter(e, c, v) :: (c, v) in ConverterEntries(e)
  {
  }

  /** After Distinct, keys are distinct exactly when no key carries two different values. */
  lemma DistinctPairsKeys<K, V>(entries: seq<(K, V)>)
    ensures DistinctKeys(Distinct(entries)) <==>
      forall a, b | a in entries && b in entries && a.0 == b.0 :: a.1 == b.1
  {
    var d := Distinct(entries);
    if !DistinctKeys(d) {
      var i, j :| 0 <= i < j < |d| && d[i].0 == d[j].0;
      assert d[i] in d && d[j] in d;
    }
  }

  /** No column carries two different converters. */
  ghost predicate ConsistentConverters(e: EntityType)
  {
    forall c, v1, v2 | HasConverter(e, c, v1) && HasConverter(e, c, v2) :: v1 == v2
  }

  lemma ConsistentConvertersIff(e: EntityType)
    ensures ConsistentConverters(e) <==>
      forall a, b | a in ConverterEntries(e) && b in ConverterEntries(e) && a.0 == b.0 :: a.1 == b.1
  {
    ConverterEntriesMembers(e);
  }

  /** GetValueConverters: fails exactly when one column is paired with two different converters (identical pairs
      are collapsed first); otherwise the map holds exactly the columns that have a converter, each with its
      converter. */
  function GetValueConverters(e: EntityType): (r: Result<map<string, Converter>, Exception>)
    ensures r.Ok? <==> ConsistentConverters(e)
    ensures r.Err? ==> DuplicateKeyError(Distinct(ConverterEntries(e)), r.error)
    ensures r.Ok? ==> forall c, v | HasConverter(e, c, v) :: c in r.value && r.value[c] == v
    ensures r.Ok? ==> forall c | c in r.value :: HasConverter(e, c, r.value[c])
  {
    ConverterEntriesMembers(e);
    DistinctPairsKeys(ConverterEntries(e));
    ConsistentConvertersIff(e);
    var r := ToDictionary(Distinct(ConverterEntries(e)));
    if r.Ok? then ToDictionaryMembers(Distinct(ConverterEntries(e))); r else r
  }
}
