/**
 The RADIUS provider form's property-mapping picker: the option list built
 from a page of API results, and the selector that tells the dual-select
 which options the provider instance already uses.
 */
module RadiusProviderForm {
  import opened Wrappers
  import opened JsArray

  /** A RADIUS property mapping as listed by the API (only the fields the form reads). */
  datatype RadiusPropertyMapping = RadiusPropertyMapping(pk: string, name: string)

  /** `DualSelectPair`: `[key, label, sortBy?, localMapping?]`; the label is `displayLabel` here. */
  datatype DualSelectPair = DualSelectPair(
    key: string,
    displayLabel: string,
    sortBy: Option<string>,
    localMapping: Option<RadiusPropertyMapping>)

  /** `[m.pk, m.name, m.name, m]` */
  function ToOption(m: RadiusPropertyMapping): (r: DualSelectPair)
    ensures r.key == m.pk && r.displayLabel == m.name
    ensures r.sortBy == Some(r.displayLabel) && r.localMapping == Some(m)
  {
    DualSelectPair(m.pk, m.name, Some(m.name), Some(m))
  }

  function KeyOf(p: DualSelectPair): string { p.key }

  function PkOf(m: RadiusPropertyMapping): string { m.pk }

  /** `results.map((m) => [m.pk, m.name, m.name, m])` */
  function PropertyMappingOptions(results: seq<RadiusPropertyMapping>): (r: seq<DualSelectPair>)
    ensures |r| == |results|
    ensures forall i :: 0 <= i < |results| ==>
      r[i].key == results[i].pk && r[i].displayLabel == results[i].name &&
      r[i].sortBy == Some(results[i].name) && r[i].localMapping == Some(results[i])
  {
    Map(results, ToOption)
  }

  /** The option keys are the result pks, in order. */
  lemma OptionKeysArePks(results: seq<RadiusPropertyMapping>)
    ensures Map(PropertyMappingOptions(results), KeyOf) == Map(results, PkOf)
  {
  }

  /** What the selector returns for one pair: a boolean, or the empty array `[]`. */
  datatype SelectorResult = Bool(b: bool) | EmptyList

  /**
   The closure `makeRadiusPropertyMappingsSelector` returns: either the one
   that tests membership in the captured `Set`, or the one that returns `[]`.
   */
  datatype Selector = HasPk(localMappings: set<string>) | AlwaysEmpty

  /**
   `makeRadiusPropertyMappingsSelector(instanceMappings)`. Any array, even an
   empty one, is truthy and gets the Set-backed closure; only `undefined` gets
   the closure returning `[]`.
   */
  function MakeSelector(instanceMappings: Option<seq<string>>): (sel: Selector)
    ensures instanceMappings.None? <==> sel.AlwaysEmpty?
    ensures instanceMappings.Some? ==>
      forall pk :: pk in sel.localMappings <==> pk in instanceMappings.value
  {
    match instanceMappings
    case None => AlwaysEmpty
    case Some(list) => HasPk(set pk | pk in list)
  }

  /** Calling the closure on a pair. */
  function Select(sel: Selector, pair: DualSelectPair): (r: SelectorResult)
    ensures sel.AlwaysEmpty? <==> r.EmptyList?
    ensures sel.HasPk? ==> (r.Bool? && (r.b <==> pair.key in sel.localMappings))
  {
    match sel
    case HasPk(localMappings) => Bool(pair.key in localMappings)
    case AlwaysEmpty => EmptyList
  }

  /** The selector made from `instanceMappings`, applied to `pair`. */
  function SelectPair(instanceMappings: Option<seq<string>>, pair: DualSelectPair): (r: SelectorResult)
    ensures instanceMappings.None? ==> r == EmptyList
    ensures instanceMappings.Some? ==> r == Bool(pair.key in instanceMappings.value)
  {
    Select(MakeSelector(instanceMappings), pair)
  }

  /** Only the pair's key is consulted; label, sort key and mapping never matter. */
  lemma SelectorReadsOnlyKey(instanceMappings: Option<seq<string>>, p: DualSelectPair, q: DualSelectPair)
    requires p.key == q.key
    ensures SelectPair(instanceMappings, p) == SelectPair(instanceMappings, q)
  {
  }

  /** Order and repetition in `instanceMappings` are lost in the Set. */
  lemma SelectorIgnoresOrderAndDuplicates(l1: seq<string>, l2: seq<string>)
    requires forall pk :: pk in l1 <==> pk in l2
    ensures MakeSelector(Some(l1)) == MakeSelector(Some(l2))
  {
  }

  /** An explicitly empty list selects nothing, but through the Set-backed closure. */
  lemma EmptyInstanceListSelectsNothing(pair: DualSelectPair)
    ensures MakeSelector(Some([])) == HasPk({})
    ensures SelectPair(Some([]), pair) == Bool(false)
  {
  }

  /** On the options of a result page, the selector marks exactly the pks the instance uses. */
  lemma SelectorOnOptions(instanceMappings: seq<string>, results: seq<RadiusPropertyMapping>, i: nat)
    requires i < |results|
    ensures SelectPair(Some(instanceMappings), PropertyMappingOptions(results)[i]) ==
      Bool(results[i].pk in instanceMappings)
  {
  }
}
