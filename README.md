# authentik admin console: property-mapping selection, modelled in Dafny

This project models the two pieces of selection logic in the authentik
admin console's provider forms. Everything else in those forms is HTML
templating bound to the REST API.

- **SAML application-wizard step** (`ak-application-wizard-provider-for-saml.ts`):
  - `propertyMappingConfiguration` computes which SAML property mappings
    the "Property Mappings" multi-select preselects (`pmValues`). If the
    provider lists its own mappings, those are used. Otherwise the
    server-managed SAML defaults, whose `managed` identifier starts with
    `goauthentik.io/providers/saml`, are used.
  - It also computes the `[pk, name]` option pairs (`propertyPairs`).
  - The component's `hasSigningKp` state follows the signing-certificate
    search. It decides whether the sign-assertion and sign-response
    switches are rendered. Their checked defaults come from the provider's
    `signAssertion` (default true) and `signResponse` (default false).
- **RADIUS provider form** (`RadiusProviderFormForm.ts`):
  - The option list `[pk, name, name, mapping]` built from a page of results.
  - `makeRadiusPropertyMappingsSelector`, which returns one of two
    closures, chosen by JavaScript truthiness:
    - for any array of instance mappings, even an empty one: "is this
      pair's pk in the Set";
    - for `undefined`: "return `[]`".

Modules:

- `Wrappers` (`wrappers.dfy`): `Option`. It stands for `T | undefined | null`, and its `GetOr` stands for `??`.
- `JsArray` (`js_array.dfy`): `Array.prototype.filter` and `map`, `String.prototype.startsWith`, and the subsequence, multiplicity and membership facts the selections inherit from them. `includes` is Dafny's `in`.
- `SamlProviderStep` (`saml_provider_step.dfy`):
  - the pure preselection functions and their lemmas;
  - the class `SamlProviderForm` with the two `@state` fields, `propertyMappings` and `hasSigningKp`;
  - the accessor `CurrentConfiguration`, which runs the preselection over the stored page;
  - the certificate-input handler;
  - the function listing the signing switches that are rendered.
- `RadiusProviderForm` (`radius_provider_form.dfy`):
  - the option map;
  - the selector. The returned closure is represented by a datatype: `HasPk(set)` for the Set-backed closure, `AlwaysEmpty` for the one returning `[]`. `Select` applies it.

Modelling choices:

- Optional values: `undefined` and `null` are both `None`. An array in a
  boolean position is truthy whatever its length. So `Some([])` always takes
  the "list present" branch.
- The loaded mapping page (`this.propertyMappings`) is an
  `Option<seq<SamlPropertyMapping>>`. Its pagination data is not read by
  the code, so it is not modelled.
- Records keep only the fields the code reads: `pk`, `name`, `managed`;
  and, for the provider, `propertyMappings`, `signAssertion`, `signResponse`.

## Model

| member | source | states |
|---|---|---|
| JsArray.Filter | web/src/admin/applications/wizard/steps/providers/ak-application-wizard-provider-for-saml.ts:58 | the filtered array is no longer than the input, and holds only input elements the test accepts |
| JsArray.Map | web/src/admin/applications/wizard/steps/providers/ak-application-wizard-provider-for-saml.ts:69 | the mapped array has the input's length, and entry i is the image of input entry i |
| JsArray.StartsWith | web/src/admin/applications/wizard/steps/providers/ak-application-wizard-provider-for-saml.ts:62 | `startsWith` holds exactly when the prefix is no longer than the string and agrees with it character by character |
| JsArray.StartsWithIsPrefixOf | web/src/admin/applications/wizard/steps/providers/ak-application-wizard-provider-for-saml.ts:62 | `startsWith(prefix)` holds exactly when the string is the prefix followed by some rest |
| JsArray.FilterCount | web/src/admin/applications/wizard/steps/providers/ak-application-wizard-provider-for-saml.ts:58 | an accepted value occurs in the result as often as in the input; a rejected value does not occur |
| JsArray.FilterMembership | web/src/admin/applications/wizard/steps/providers/ak-application-wizard-provider-for-saml.ts:58 | a value is in the result if and only if it is in the input and accepted |
| JsArray.FilterIsSubsequence | web/src/admin/applications/wizard/steps/providers/ak-application-wizard-provider-for-saml.ts:58 | the result is a subsequence of the input, so the input order is kept |
| JsArray.FilterRejectsAll | web/src/admin/applications/wizard/steps/providers/ak-application-wizard-provider-for-saml.ts:58 | a test that rejects every element yields the empty array |
| JsArray.FilterCongruence | web/src/admin/applications/wizard/steps/providers/ak-application-wizard-provider-for-saml.ts:58 | two tests that agree on the input's elements give the same result |
| JsArray.MapMembership | web/src/admin/applications/wizard/steps/providers/ak-application-wizard-provider-for-saml.ts:63 | a value is in the mapped array if and only if it is the image of some input element |
| JsArray.MapPreservesSubsequence | web/src/admin/applications/wizard/steps/providers/ak-application-wizard-provider-for-saml.ts:60-63 | mapping a subsequence gives a subsequence of the mapped input, so filter-then-map keeps the order |
| JsArray.SubsequenceDistinct | web/src/admin/applications/wizard/steps/providers/ak-application-wizard-provider-for-saml.ts:58 | a subsequence of a duplicate-free sequence is duplicate-free |
| SamlProviderStep.Pks | web/src/admin/applications/wizard/steps/providers/ak-application-wizard-provider-for-saml.ts:58 | one pk per available mapping, in the available list's order |
| SamlProviderStep.InList | web/src/admin/applications/wizard/steps/providers/ak-application-wizard-provider-for-saml.ts:58 | the filter test accepts a pk exactly when the provider list `includes` it |
| SamlProviderStep.IsSamlManaged | web/src/admin/applications/wizard/steps/providers/ak-application-wizard-provider-for-saml.ts:62 | a mapping is SAML-managed exactly when it has a `managed` value that starts with `goauthentik.io/providers/saml`; a missing value, read as `""`, never is |
| SamlProviderStep.Available | web/src/admin/applications/wizard/steps/providers/ak-application-wizard-provider-for-saml.ts:55 | before the page has loaded the available list is empty; afterwards it is the page's results |
| SamlProviderStep.HasProviderList | web/src/admin/applications/wizard/steps/providers/ak-application-wizard-provider-for-saml.ts:65 | no provider means no provider list; a present but empty list still counts as a list (an empty array is truthy) |
| SamlProviderStep.ConfiguredMappings | web/src/admin/applications/wizard/steps/providers/ak-application-wizard-provider-for-saml.ts:57-58 | a pk is configured if and only if it is an available pk and the provider lists it |
| SamlProviderStep.ManagedRecords | web/src/admin/applications/wizard/steps/providers/ak-application-wizard-provider-for-saml.ts:61-62 | a mapping is kept exactly when it is available and SAML-managed; nothing else is added |
| SamlProviderStep.ManagedMappings | web/src/admin/applications/wizard/steps/providers/ak-application-wizard-provider-for-saml.ts:60-63 | one pk per kept mapping; a pk is a managed default if and only if some available mapping with that pk is SAML-managed |
| SamlProviderStep.PropertyMappingConfiguration | web/src/admin/applications/wizard/steps/providers/ak-application-wizard-provider-for-saml.ts:54-72 | if the provider has a list, a pk is preselected if and only if it is available and listed; otherwise if and only if some SAML-managed mapping carries it; `propertyPairs` has the available list's length, and entry i is `(pk_i, name_i)`; before loading, both are empty |
| SamlProviderStep.PreselectionIsOrderedSubsequence | web/src/admin/applications/wizard/steps/providers/ak-application-wizard-provider-for-saml.ts:57-67 | in both branches `pmValues` is a subsequence of the available pks (their order, not the provider's); distinct available pks give a distinct `pmValues` |
| SamlProviderStep.ConfiguredCount | web/src/admin/applications/wizard/steps/providers/ak-application-wizard-provider-for-saml.ts:57-58 | each pk the provider lists is kept as often as it is available; pks the provider lists that are not available are dropped, and unlisted pks never appear |
| SamlProviderStep.ConfiguredIgnoresProviderOrder | web/src/admin/applications/wizard/steps/providers/ak-application-wizard-provider-for-saml.ts:58 | two provider lists holding the same pks give the same preselection, whatever their order or repetition |
| SamlProviderStep.EmptyProviderListPreselectsNothing | web/src/admin/applications/wizard/steps/providers/ak-application-wizard-provider-for-saml.ts:65-67 | a present but empty provider list is truthy: nothing is preselected, even when managed defaults exist |
| SamlProviderStep.ManagedPreselectionExact | web/src/admin/applications/wizard/steps/providers/ak-application-wizard-provider-for-saml.ts:60-67 | without a provider list the preselected records are a subsequence of the available list. They hold every occurrence of each SAML-managed mapping and nothing else, each with a `managed` value carrying the prefix, and `pmValues` is their pks in that order |
| SamlProviderStep.UnmanagedNeverPreselected | web/src/admin/applications/wizard/steps/providers/ak-application-wizard-provider-for-saml.ts:60-67 | without a provider list, a mapping that is not SAML-managed is never preselected when available pks are distinct |
| SamlProviderStep.NoManagedValueIsNotSamlManaged | web/src/admin/applications/wizard/steps/providers/ak-application-wizard-provider-for-saml.ts:62 | a mapping with no `managed` value is read as `""`, which never carries the SAML prefix |
| SamlProviderStep.AfterCertificateInput | web/src/admin/applications/wizard/steps/providers/ak-application-wizard-provider-for-saml.ts:168-174 | a missing target leaves the flag unchanged; otherwise the flag is true exactly when the target has a selected keypair |
| SamlProviderStep.InputsFollowLastTarget | web/src/admin/applications/wizard/steps/providers/ak-application-wizard-provider-for-saml.ts:168-174 | after any series of input events the flag says whether the last present target had a keypair; with no present target it is unchanged |
| SamlProviderStep.AfterInputsSplit | web/src/admin/applications/wizard/steps/providers/ak-application-wizard-provider-for-saml.ts:168-174 | handling one more event after a series is the same as handling it on the state the series left |
| SamlProviderStep.SamlProviderForm.constructor | web/src/admin/applications/wizard/steps/providers/ak-application-wizard-provider-for-saml.ts:35-44 | a new step has no mappings loaded and `hasSigningKp` false |
| SamlProviderStep.SamlProviderForm.PropertyMappingsLoaded | web/src/admin/applications/wizard/steps/providers/ak-application-wizard-provider-for-saml.ts:49-51 | the loaded page is stored and the signing flag is untouched |
| SamlProviderStep.SamlProviderForm.CurrentConfiguration | web/src/admin/applications/wizard/steps/providers/ak-application-wizard-provider-for-saml.ts:54-55 | the preselection over the stored field: empty before the page arrives, one option pair per loaded mapping afterwards |
| SamlProviderStep.SamlProviderForm.OnCertificateInput | web/src/admin/applications/wizard/steps/providers/ak-application-wizard-provider-for-saml.ts:168-174 | the new flag is `AfterCertificateInput` of the old flag and the target; the loaded mappings are untouched |
| SamlProviderStep.SamlProviderForm.SigningSwitches | web/src/admin/applications/wizard/steps/providers/ak-application-wizard-provider-for-saml.ts:182-227 | no switch without a signing keypair; with one, exactly `signAssertion` (checked unless the provider says false) then `signResponse` (checked only if the provider says true) |
| RadiusProviderForm.PropertyMappingOptions | web/src/admin/providers/radius/RadiusProviderFormForm.ts:32 | one option per result, in order; option i is `[pk_i, name_i, name_i, m_i]` |
| RadiusProviderForm.ToOption | web/src/admin/providers/radius/RadiusProviderFormForm.ts:32 | the option's key is the pk, its label is the name, its sort key repeats the label, and it carries the mapping itself |
| RadiusProviderForm.OptionKeysArePks | web/src/admin/providers/radius/RadiusProviderFormForm.ts:32 | the option keys are exactly the result pks, in order |
| RadiusProviderForm.MakeSelector | web/src/admin/providers/radius/RadiusProviderFormForm.ts:36-41 | `undefined` and only `undefined` gives the `[]` closure; any array gives a Set holding exactly its pks |
| RadiusProviderForm.Select | web/src/admin/providers/radius/RadiusProviderFormForm.ts:39-40 | the `[]` closure answers `[]` and nothing else; the Set-backed closure answers a boolean, true exactly when the pair's key is in the Set |
| RadiusProviderForm.SelectPair | web/src/admin/providers/radius/RadiusProviderFormForm.ts:36-41 | with instance mappings, a pair gives true exactly when its key is listed; without them, every pair gives `[]` |
| RadiusProviderForm.SelectorReadsOnlyKey | web/src/admin/providers/radius/RadiusProviderFormForm.ts:39 | pairs with the same key get the same answer: label, sort key and mapping are never consulted |
| RadiusProviderForm.SelectorIgnoresOrderAndDuplicates | web/src/admin/providers/radius/RadiusProviderFormForm.ts:37 | instance lists holding the same pks give the same selector, whatever their order or duplicates |
| RadiusProviderForm.EmptyInstanceListSelectsNothing | web/src/admin/providers/radius/RadiusProviderFormForm.ts:37-39 | an explicitly empty list gives the Set-backed closure over the empty set, which answers false for every pair |
| RadiusProviderForm.SelectorOnOptions | web/src/admin/providers/radius/RadiusProviderFormForm.ts:32-39 | on the option built from result i, the selector answers whether result i's pk is an instance mapping |

## Left out

- `web/src/components/ak-wizard-main/events.ts`: three `Event` subclasses that store one field and set `bubbles`/`composed`. They hold no logic beyond native DOM dispatch.
- HTML templating, custom-element registration, `msg` localisation, the other form fields and error-message wiring. These are rendering. The one rendering decision kept is the signing-switch gating.
- The API requests (`propertymappingsProviderSamlList` in the SAML constructor, the awaited list call in `radiusPropertyMappingsProvider`). They are remote I/O. The arrival of the SAML list is the method `PropertyMappingsLoaded`; the RADIUS page is the `results` parameter; `pagination` is passed through untouched and not modelled.
- The RADIUS shared-secret default, which uses randomness (`randomString`), and the `first`-based defaults of the RADIUS form. They come from a utility module that is not part of this model.
- The exception `render()` throws on an uninitialised wizard context. It depends on wizard plumbing that is not part of this model.
- SAML and RADIUS protocol semantics, CIDR lists and duration strings such as `minutes=5`. They appear only as help texts and default literals.
- Record fields the code never reads. Mappings keep `pk`, `name`, `managed`; the provider keeps `propertyMappings`, `signAssertion`, `signResponse`.
