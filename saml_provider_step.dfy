/**
 The SAML step of the application wizard: which property mappings the
 "Property Mappings" multi-select offers and preselects, and the
 "is a signing certificate selected" flag that decides whether the
 sign-assertion and sign-response switches are rendered.
 */
module SamlProviderStep {
  import opened Wrappers
  import opened JsArray

  /** Prefix of the `managed` identifier of the SAML mappings shipped with the server. */
  const SamlManagedPrefix: string := "goauthentik.io/providers/saml"

  /** A SAML property mapping as listed by the API (only the fields the step reads). */
  datatype SamlPropertyMapping = SamlPropertyMapping(pk: string, name: string, managed: Option<string>)

  /** The provider being edited (only the fields the step reads). */
  datatype SamlProvider = SamlProvider(
    propertyMappings: Option<seq<string>>,
    signAssertion: Option<bool>,
    signResponse: Option<bool>)

  /** What the multi-select receives: preselected pks and `[pk, name]` options. */
  datatype Configuration = Configuration(pmValues: seq<string>, propertyPairs: seq<(string, string)>)

  function PkOf(m: SamlPropertyMapping): string { m.pk }

  function PairOf(m: SamlPropertyMapping): (string, string) { (m.pk, m.name) }

  /** `providerMappings.includes(pk)`, as a test to filter with. */
  function InList(providerMappings: seq<string>): (r: string -> bool)
    ensures forall pk :: r(pk) <==> pk in providerMappings
  {
    pk => pk in providerMappings
  }

  /** `(pm?.managed ?? "").startsWith("goauthentik.io/providers/saml")` */
  predicate IsSamlManaged(m: SamlPropertyMapping)
    ensures IsSamlManaged(m) <==> m.managed.Some? && StartsWith(m.managed.value, SamlManagedPrefix)
  {
    StartsWith(m.managed.GetOr(""), SamlManagedPrefix)
  }

  /** `this.propertyMappings?.results ?? []`: nothing before the list has loaded. */
  function Available(loaded: Option<seq<SamlPropertyMapping>>): (r: seq<SamlPropertyMapping>)
    ensures loaded.None? ==> r == []
    ensures loaded.Some? ==> r == loaded.value
  {
    loaded.GetOr([])
  }

  /** The pks of the available mappings, in their order. */
  function Pks(ms: seq<SamlPropertyMapping>): (r: seq<string>)
    ensures |r| == |ms| && forall i :: 0 <= i < |ms| ==> r[i] == ms[i].pk
  {
    Map(ms, PkOf)
  }

  /** `configuredMappings`: the available pks that the provider lists. */
  function ConfiguredMappings(ms: seq<SamlPropertyMapping>, providerMappings: seq<string>): (r: seq<string>)
    ensures forall x :: x in r <==> x in Pks(ms) && x in providerMappings
  {
    var r := Filter(Pks(ms), InList(providerMappings));
    assert forall x :: x in r <==> x in Pks(ms) && x in providerMappings by {
      forall x ensures x in r <==> x in Pks(ms) && x in providerMappings {
        FilterMembership(Pks(ms), InList(providerMappings), x);
      }
    }
    r
  }

  /** The mappings the server manages for SAML, in their order. */
  function ManagedRecords(ms: seq<SamlPropertyMapping>): (r: seq<SamlPropertyMapping>)
    ensures |r| <= |ms|
    ensures forall m :: m in r <==> m in ms && IsSamlManaged(m)
  {
    var r := Filter(ms, IsSamlManaged);
    assert forall m :: m in r <==> m in ms && IsSamlManaged(m) by {
      forall m ensures m in r <==> m in ms && IsSamlManaged(m) {
        FilterMembership(ms, IsSamlManaged, m);
      }
    }
    r
  }

  /** `managedMappings`: the pks of the SAML-managed mappings. */
  function ManagedMappings(ms: seq<SamlPropertyMapping>): (r: seq<string>)
    ensures |r| == |ManagedRecords(ms)|
    ensures forall x :: x in r <==> exists i :: 0 <= i < |ms| && ms[i].pk == x && IsSamlManaged(ms[i])
  {
    var r := Map(ManagedRecords(ms), PkOf);
    assert forall x :: x in r <==> exists i :: 0 <= i < |ms| && ms[i].pk == x && IsSamlManaged(ms[i]) by {
      forall x ensures x in r <==> exists i :: 0 <= i < |ms| && ms[i].pk == x && IsSamlManaged(ms[i]) {
        MapMembership(ManagedRecords(ms), PkOf, x);
        if x in r {
          var m :| m in ManagedRecords(ms) && m.pk == x;
          var i :| 0 <= i < |ms| && ms[i] == m;
        }
        if exists i :: 0 <= i < |ms| && ms[i].pk == x && IsSamlManaged(ms[i]) {
          var i :| 0 <= i < |ms| && ms[i].pk == x && IsSamlManaged(ms[i]);
          assert ms[i] in ManagedRecords(ms);
        }
      }
    }
    r
  }

  /** `provider?.propertyMappings` is truthy: present, even when it is an empty array. */
  predicate HasProviderList(provider: Option<SamlProvider>)
    ensures provider.None? ==> !HasProviderList(provider)
    ensures provider.Some? && provider.value.propertyMappings == Some([]) ==> HasProviderList(provider)
  {
    provider.Some? && provider.value.propertyMappings.Some?
  }

  /** `propertyMappingConfiguration(provider)` over the loaded list. */
  function PropertyMappingConfiguration(loaded: Option<seq<SamlPropertyMapping>>, provider: Option<SamlProvider>): (c: Configuration)
    ensures HasProviderList(provider) ==>
      forall x :: x in c.pmValues <==> x in Pks(Available(loaded)) && x in provider.value.propertyMappings.value
    ensures !HasProviderList(provider) ==>
      forall x :: x in c.pmValues <==>
        exists i :: 0 <= i < |Available(loaded)| && Available(loaded)[i].pk == x && IsSamlManaged(Available(loaded)[i])
    ensures |c.propertyPairs| == |Available(loaded)|
    ensures forall i :: 0 <= i < |Available(loaded)| ==>
      c.propertyPairs[i] == (Available(loaded)[i].pk, Available(loaded)[i].name)
    ensures loaded.None? ==> c.pmValues == [] && c.propertyPairs == []
  {
    var ms := Available(loaded);
    var pmValues :=
      if HasProviderList(provider) then ConfiguredMappings(ms, provider.value.propertyMappings.GetOr([]))
      else ManagedMappings(ms);
    Configuration(pmValues, Map(ms, PairOf))
  }

  /**
   The preselection keeps the available list's order (never the provider
   list's) and, when the available pks are distinct, repeats no pk.
   */
  lemma PreselectionIsOrderedSubsequence(loaded: Option<seq<SamlPropertyMapping>>, provider: Option<SamlProvider>)
    ensures IsSubsequence(PropertyMappingConfiguration(loaded, provider).pmValues, Pks(Available(loaded)))
    ensures Distinct(Pks(Available(loaded))) ==> Distinct(PropertyMappingConfiguration(loaded, provider).pmValues)
  {
    var ms := Available(loaded);
    var pmValues := PropertyMappingConfiguration(loaded, provider).pmValues;
    if HasProviderList(provider) {
      FilterIsSubsequence(Pks(ms), InList(provider.value.propertyMappings.value));
    } else {
      FilterIsSubsequence(ms, IsSamlManaged);
      MapPreservesSubsequence(ManagedRecords(ms), ms, PkOf);
    }
    if Distinct(Pks(ms)) {
      SubsequenceDistinct(pmValues, Pks(ms));
    }
  }

  /**
   With a provider list, each available pk is preselected as often as it is
   available if the provider lists it, and not at all otherwise: pks the
   provider lists but that are not available are dropped.
   */
  lemma ConfiguredCount(ms: seq<SamlPropertyMapping>, providerMappings: seq<string>, x: string)
    ensures multiset(ConfiguredMappings(ms, providerMappings))[x] ==
      if x in providerMappings then multiset(Pks(ms))[x] else 0
  {
    FilterCount(Pks(ms), InList(providerMappings), x);
  }

  /** Only which pks the provider lists matters, not their order or repetition. */
  lemma ConfiguredIgnoresProviderOrder(ms: seq<SamlPropertyMapping>, l1: seq<string>, l2: seq<string>)
    requires forall x :: x in l1 <==> x in l2
    ensures ConfiguredMappings(ms, l1) == ConfiguredMappings(ms, l2)
  {
    FilterCongruence(Pks(ms), InList(l1), InList(l2));
  }

  /**
   An empty array from the provider is truthy: it preselects nothing, and
   the managed defaults are not consulted even when some exist.
   */
  lemma EmptyProviderListPreselectsNothing(loaded: Option<seq<SamlPropertyMapping>>, provider: SamlProvider)
    requires provider.propertyMappings == Some([])
    ensures PropertyMappingConfiguration(loaded, Some(provider)).pmValues == []
  {
    FilterRejectsAll(Pks(Available(loaded)), InList([]));
  }

  /**
   Without a provider list the preselection is made of the SAML-managed
   mappings: a subsequence of the available list that holds every occurrence
   of each managed mapping and nothing else, and whose pks it lists in order.
   */
  lemma ManagedPreselectionExact(loaded: Option<seq<SamlPropertyMapping>>, provider: Option<SamlProvider>)
    requires !HasProviderList(provider)
    ensures var ms, pmValues := Available(loaded), PropertyMappingConfiguration(loaded, provider).pmValues;
      && IsSubsequence(ManagedRecords(ms), ms)
      && (forall m :: multiset(ManagedRecords(ms))[m] == if IsSamlManaged(m) then multiset(ms)[m] else 0)
      && (forall m :: m in ManagedRecords(ms) ==> m.managed.Some? && StartsWith(m.managed.value, SamlManagedPrefix))
      && |pmValues| == |ManagedRecords(ms)|
      && (forall k :: 0 <= k < |pmValues| ==> pmValues[k] == ManagedRecords(ms)[k].pk)
  {
    var ms := Available(loaded);
    FilterIsSubsequence(ms, IsSamlManaged);
    forall m ensures multiset(ManagedRecords(ms))[m] == if IsSamlManaged(m) then multiset(ms)[m] else 0 {
      FilterCount(ms, IsSamlManaged, m);
    }
  }

  /**
   A mapping that is not SAML-managed (in particular one with no `managed`
   value, read as "") is never a default, provided its pk is not shared.
   */
  lemma UnmanagedNeverPreselected(loaded: Option<seq<SamlPropertyMapping>>, provider: Option<SamlProvider>, i: nat)
    requires !HasProviderList(provider)
    requires i < |Available(loaded)| && !IsSamlManaged(Available(loaded)[i])
    requires Distinct(Pks(Available(loaded)))
    ensures Available(loaded)[i].pk !in PropertyMappingConfiguration(loaded, provider).pmValues
  {
  }

  /** A mapping with no `managed` value is not SAML-managed. */
  lemma NoManagedValueIsNotSamlManaged(m: SamlPropertyMapping)
    requires m.managed.None?
    ensures !IsSamlManaged(m)
  {
  }

  /** A certificate the user picked in the signing-certificate search. */
  datatype Keypair = Keypair(pk: string, name: string)

  /** The `ak-crypto-certificate-search` element that fired `input`. */
  datatype CertificateSearch = CertificateSearch(selectedKeypair: Option<Keypair>)

  /** A checkbox switch of the form: its field name and whether it renders checked. */
  datatype Switch = Switch(name: string, checked: bool)

  /** The flag after one `input` event: a missing target changes nothing. */
  function AfterCertificateInput(hasSigningKp: bool, target: Option<CertificateSearch>): (r: bool)
    ensures target.None? ==> r == hasSigningKp
    ensures target.Some? ==> (r <==> target.value.selectedKeypair.Some?)
  {
    match target
    case None => hasSigningKp
    case Some(t) => t.selectedKeypair.Some?
  }

  /** The flag after a series of `input` events, in order. */
  function AfterCertificateInputs(hasSigningKp: bool, targets: seq<Option<CertificateSearch>>): bool
    decreases |targets|
  {
    if targets == [] then hasSigningKp
    else AfterCertificateInputs(AfterCertificateInput(hasSigningKp, targets[0]), targets[1..])
  }

  /** The last target that was actually present, searching from the end. */
  function LastPresentTarget(targets: seq<Option<CertificateSearch>>): Option<CertificateSearch>
    decreases |targets|
  {
    if targets == [] then None
    else if targets[|targets| - 1].Some? then targets[|targets| - 1]
    else LastPresentTarget(targets[..|targets| - 1])
  }

  /**
   After any series of events the flag says whether the last present target
   had a keypair selected; with no present target it is what it was.
   */
  lemma {:induction false} InputsFollowLastTarget(hasSigningKp: bool, targets: seq<Option<CertificateSearch>>)
    ensures AfterCertificateInputs(hasSigningKp, targets) ==
      match LastPresentTarget(targets)
      case None => hasSigningKp
      case Some(t) => t.selectedKeypair.Some?
    decreases |targets|
  {
    if targets != [] {
      var n := |targets| - 1;
      AfterInputsSplit(hasSigningKp, targets[..n], targets[n]);
      assert targets[..n] + [targets[n]] == targets;
      InputsFollowLastTarget(hasSigningKp, targets[..n]);
    }
  }

  /** Handling one more event after a series is handling it on the series' result. */
  lemma {:induction false} AfterInputsSplit(hasSigningKp: bool, targets: seq<Option<CertificateSearch>>, last: Option<CertificateSearch>)
    ensures AfterCertificateInputs(hasSigningKp, targets + [last]) ==
      AfterCertificateInput(AfterCertificateInputs(hasSigningKp, targets), last)
    decreases |targets|
  {
    if targets != [] {
      assert (targets + [last])[1..] == targets[1..] + [last];
      AfterInputsSplit(AfterCertificateInput(hasSigningKp, targets[0]), targets[1..], last);
    }
  }

  /**
   The wizard step's component state. `propertyMappings` is filled in when
   the API's list of SAML mappings arrives; `hasSigningKp` follows the
   signing-certificate search.
   */
  class SamlProviderForm {
    var propertyMappings: Option<seq<SamlPropertyMapping>>
    var hasSigningKp: bool

    /** A fresh step: nothing loaded yet, no signing certificate selected. */
    constructor ()
      ensures propertyMappings == None && !hasSigningKp
    {
      propertyMappings := None;
      hasSigningKp := false;
    }

    /** The list request resolved with `results`. */
    method PropertyMappingsLoaded(results: seq<SamlPropertyMapping>)
      modifies this
      ensures propertyMappings == Some(results) && hasSigningKp == old(hasSigningKp)
    {
      propertyMappings := Some(results);
    }

    /** `this.propertyMappingConfiguration(provider)`: the selection over the stored page. */
    function CurrentConfiguration(provider: Option<SamlProvider>): (c: Configuration)
      reads this
      ensures propertyMappings.None? ==> c.pmValues == [] && c.propertyPairs == []
      ensures propertyMappings.Some? ==> |c.propertyPairs| == |propertyMappings.value|
    {
      PropertyMappingConfiguration(propertyMappings, provider)
    }

    /** The signing-certificate search fired `input`. */
    method OnCertificateInput(target: Option<CertificateSearch>)
      modifies this
      ensures hasSigningKp == AfterCertificateInput(old(hasSigningKp), target)
      ensures propertyMappings == old(propertyMappings)
    {
      if target.None? {
        return;
      }
      hasSigningKp := target.value.selectedKeypair.Some?;
    }

    /**
     The signing switches the form renders for `provider`: none without a
     signing certificate; otherwise sign-assertion (checked unless the
     provider says false) and sign-response (checked only if it says true).
     */
    function SigningSwitches(provider: SamlProvider): (r: seq<Switch>)
      reads this
      ensures |r| == if hasSigningKp then 2 else 0
      ensures hasSigningKp ==> r[0].name == "signAssertion" && r[1].name == "signResponse"
      ensures hasSigningKp ==> (r[0].checked <==> provider.signAssertion != Some(false))
      ensures hasSigningKp ==> (r[1].checked <==> provider.signResponse == Some(true))
    {
      if hasSigningKp then
        [Switch("signAssertion", provider.signAssertion.GetOr(true)),
         Switch("signResponse", provider.signResponse.GetOr(false))]
      else []
    }
  }
}
