# Look-and-feel helpers of liferay-theme-tasks, in Dafny

A Liferay theme describes itself in `WEB-INF/liferay-look-and-feel.xml`.
The theme tasks read this descriptor as a JSON tree. Each element has
attributes under `$` and children as arrays keyed by tag name. The helpers
in `lib/look_and_feel_util.js` do the following:

- fix the theme's `id` and `name`;
- merge a child theme's descriptor with its parent's, array by array;
- collect every element with a given tag;
- build the DOCTYPE line for a descriptor version;
- keep descriptors they have read in a cache.

The implementation file is not part of this model. What the helpers must do
is taken from their test suite, `lib/__tests__/look_and_feel_util.test.js`.
Each operation is modelled so that the suite's expectations follow from
its contract. The tests' concrete merge, identifier, doctype and cache
cases are restated as example lemmas or methods. The null-argument cases are
clauses of the merge functions' contracts. The base theme's descriptor is
not part of this model, so the extraction example runs on a small theme of
its own with two portlet decorators.

Modules:

- `Document` (document.dfy): the JSON tree as values.
  - `Node` is an `Element` with attributes and an ordered list of `Field`s (tag ↦ array), or `Text`.
  - `Doc` is the whole descriptor, whose root is the `look-and-feel` element.
  - `ThemeOf` reads `look-and-feel.theme[0]`.
  - `WithTheme` replaces that element.
  - `Wrappers.Option`: `None` stands for JavaScript's `null`/`undefined`.
- `ElementMerge` (element_merge.dfy): `mergeThemeElementById` and
  `mergeThemeElementByValue`, each with a reference definition (union
  without repeats) and lemmas tying the two together.
- `ThemeMerge` (theme_merge.dfy): `mergeJSON`. In this model the merged
  theme element keeps the child's `$` attributes only. For each tag:
  - a tag present in only one theme keeps that theme's array;
  - a tag present in both is merged by the rule for that tag (replace, by id or by value).
- `Extract` (extract.dfy): `extractThemeElement`, a depth-first walk in
  document order.
- `Identifiers` (identifiers.dfy): `correctJSONIdentifiers`. It is a class
  holding the descriptor, with a method that sets the theme's `name` to the
  given name and its `id` to that name's slug.
- `Doctype` (doctype.dfy): `getLookAndFeelDoctypeByVersion` and its inverse.
- `XmlCache` (xml_cache.dfy): `readLookAndFeelXML` over the module-level
  `xmlCache`. The cache is a class whose map and disk-read counter are
  updated in place.

## Model

| member | source | states |
|---|---|---|
| Document.ThemeOf | lib/__tests__/look_and_feel_util.test.js:48-53 | the theme exists exactly when the root's `theme` array starts with an element, and it is that first item |
| Document.WithTheme | lib/__tests__/look_and_feel_util.test.js:46-53 | replacing the theme element changes `look-and-feel.theme[0]` and nothing else: same root attributes and fields; the `theme` array keeps its key, position and length, holds the new element first and keeps every later item |
| Document.WithOwnTheme | lib/__tests__/look_and_feel_util.test.js:133-139 | putting back a descriptor's own theme element gives the same descriptor |
| ElementMerge.WithNewIds | lib/__tests__/look_and_feel_util.test.js:180-228 | keeps exactly the elements of the second array whose id is not already taken, and their ids are the second array's ids minus the taken ones |
| ElementMerge.MergeThemeElementById | lib/__tests__/look_and_feel_util.test.js:149-228 | null only when both arrays are null; with one null, the other array itself; otherwise the first array followed by the second's elements whose id the first lacks |
| ElementMerge.MergeByIdKeepsAllIds | lib/__tests__/look_and_feel_util.test.js:180-228 | every id of either array appears in the merge, and no other id does |
| ElementMerge.MergeByIdUniqueIds | lib/__tests__/look_and_feel_util.test.js:180-228 | "exclude repeated elements according to id": merging two arrays without repeated ids gives one without repeated ids |
| ElementMerge.UniqueIdsOfFilter | lib/__tests__/look_and_feel_util.test.js:180-228 | filtering out taken ids keeps ids distinct and avoids every taken id |
| ElementMerge.DedupByIdOfUnique | lib/__tests__/look_and_feel_util.test.js:180-228 | the reference union-by-id leaves an array whose ids are already distinct unchanged |
| ElementMerge.UnionByIdSuffix | lib/__tests__/look_and_feel_util.test.js:180-228 | the reference union-by-id of two concatenated arrays is the first's union followed by the second's elements with new ids |
| ElementMerge.MergeByIdIsUnionById | lib/__tests__/look_and_feel_util.test.js:180-228 | for arrays with distinct ids, the merge equals the independent reference definition (first occurrence of each id, in order) |
| ElementMerge.MergeByIdSelf | lib/__tests__/look_and_feel_util.test.js:133-139 | merging an array with itself by id returns it |
| ElementMerge.MergeByIdExample | lib/__tests__/look_and_feel_util.test.js:180-228 | [one, two] merged with [two, three] by id is [one, two, three] |
| ElementMerge.AppendNew | lib/__tests__/look_and_feel_util.test.js:252-262 | appends, in order, each value of the second array not already present; the result's values are the union and it stays free of repeats |
| ElementMerge.MergeThemeElementByValue | lib/__tests__/look_and_feel_util.test.js:230-262 | null only when both arrays are null; with one null, the other; otherwise the first array followed by the new values of the second, with the union of both as its values |
| ElementMerge.DedupElements | lib/__tests__/look_and_feel_util.test.js:252-262 | the reference de-duplication keeps exactly the values of its input, each once |
| ElementMerge.DedupOfDistinct | lib/__tests__/look_and_feel_util.test.js:252-262 | de-duplicating an array without repeats gives the array back |
| ElementMerge.MergeByValueIsDedup | lib/__tests__/look_and_feel_util.test.js:252-262 | for a first array without repeats, the merge equals the reference de-duplication of the concatenation |
| ElementMerge.MergeByValueSelf | lib/__tests__/look_and_feel_util.test.js:133-139 | merging an array with itself by value returns it |
| ElementMerge.MergeByValueExample | lib/__tests__/look_and_feel_util.test.js:252-262 | ['one', 'two'] merged with ['two', 'three'] by value is ['one', 'two', 'three'] |
| ThemeMerge.MergeItems | lib/__tests__/look_and_feel_util.test.js:133-146 | the merged array of a tag present in both themes: the child's under the replace rule, otherwise the by-id or by-value merge; the child's items always come first |
| ThemeMerge.MergeChildFields | lib/__tests__/look_and_feel_util.test.js:133-146 | the child's fields in the child's order, each under its own tag |
| ThemeMerge.ParentOnly | lib/__tests__/look_and_feel_util.test.js:133-146 | exactly the parent fields whose tag the child lacks |
| ThemeMerge.MergeTheme | lib/__tests__/look_and_feel_util.test.js:133-146 | the merged theme element keeps the child's attributes and holds every tag of either theme |
| ThemeMerge.MergeJSON | lib/__tests__/look_and_feel_util.test.js:133-146 | defined exactly when both descriptors have a theme element; the result's theme is the merged theme; the root attributes, every other root field and the later items of the `theme` array are the child's |
| ThemeMerge.MergeFieldsLookup | lib/__tests__/look_and_feel_util.test.js:133-146 | per tag: only in the child gives the child's array, only in the parent gives the parent's, in both gives the rule's merge, in neither gives nothing |
| ThemeMerge.MergeFieldsTags | lib/__tests__/look_and_feel_util.test.js:133-146 | the merged theme's tags are the union of both themes' tags |
| ThemeMerge.MergeFieldsUniqueTags | lib/__tests__/look_and_feel_util.test.js:133-146 | merging keeps each tag at most once |
| ThemeMerge.MergeItemsSelf | lib/__tests__/look_and_feel_util.test.js:133-139 | each rule merges an array with itself to that array |
| ThemeMerge.MergeFieldsSelf | lib/__tests__/look_and_feel_util.test.js:133-139 | merging a theme's fields with themselves returns them, same order |
| ThemeMerge.MergeJSONSelf | lib/__tests__/look_and_feel_util.test.js:133-139 | merging a descriptor with itself gives back an equal descriptor |
| Extract.ExtractNodeExactly | lib/__tests__/look_and_feel_util.test.js:118-131 | an element is extracted from a subtree exactly when it occurs there under the requested tag |
| Extract.ExtractItemsExactly | lib/__tests__/look_and_feel_util.test.js:118-131 | the same for an array of items under a key: an item counts when the key is the tag, and so does everything found below it |
| Extract.ExtractThemeElementExactly | lib/__tests__/look_and_feel_util.test.js:118-131 | extractThemeElement returns exactly the elements under the requested tag anywhere in the descriptor |
| Extract.ExtractFieldsConcat | lib/__tests__/look_and_feel_util.test.js:118-131 | document order: extracting from two runs of fields is the first run's result followed by the second's |
| Extract.ExtractItemsConcat | lib/__tests__/look_and_feel_util.test.js:118-131 | document order for runs of items |
| Extract.ExtractDecoratorsExample | lib/__tests__/look_and_feel_util.test.js:118-131 | a theme with portlet decorators 1 and 2 yields exactly those two, in that order |
| Identifiers.Lower | lib/__tests__/look_and_feel_util.test.js:48-50 | lower-casing turns a letter or digit into a slug character and leaves slug characters alone |
| Identifiers.LowerAll | lib/__tests__/look_and_feel_util.test.js:48-50 | lower-cases every character, keeping the length |
| Identifiers.WordLength | lib/__tests__/look_and_feel_util.test.js:48-50 | the length of the leading run of letters and digits |
| Identifiers.Words | lib/__tests__/look_and_feel_util.test.js:48-50 | every word of the name is a non-empty run of lower-case letters and digits |
| Identifiers.JoinIsSlug | lib/__tests__/look_and_feel_util.test.js:48-50 | words joined by hyphens form a slug: lower-case letters, digits and single inner hyphens |
| Identifiers.SlugIsSlug | lib/__tests__/look_and_feel_util.test.js:48-50 | the id derived from any name is a slug |
| Identifiers.WordsOfJoin | lib/__tests__/look_and_feel_util.test.js:48-50 | splitting a hyphen-joined list of words gives the words back |
| Identifiers.SlugIdempotent | lib/__tests__/look_and_feel_util.test.js:48-50 | the slug of a slug is that slug |
| Identifiers.SlugOfTwoWords | lib/__tests__/look_and_feel_util.test.js:48-59 | two words separated by a space become both words lower-cased and joined by a hyphen |
| Identifiers.SlugTestName | lib/__tests__/look_and_feel_util.test.js:48-50 | "Test Name" gives the id "test-name" |
| Identifiers.SlugBaseTheme | lib/__tests__/look_and_feel_util.test.js:57-59 | "Base Theme" gives the id "base-theme" |
| Identifiers.CorrectedTheme | lib/__tests__/look_and_feel_util.test.js:45-63 | the corrected theme element has `name` set to the name and `id` to its slug; all other attributes and all children are kept |
| Identifiers.CorrectLastWins | lib/__tests__/look_and_feel_util.test.js:45-63 | correcting twice is the same as correcting once with the second name |
| Identifiers.CorrectIdempotent | lib/__tests__/look_and_feel_util.test.js:45-63 | correcting twice with the same name changes nothing more |
| Identifiers.CorrectedThemeWhenCurrent | lib/__tests__/look_and_feel_util.test.js:45 | the correction leaves a theme unchanged exactly when its name is already the argument and its id already that name's slug |
| Identifiers.LookAndFeelJSON.CorrectJSONIdentifiers | lib/__tests__/look_and_feel_util.test.js:45-63 | updates the descriptor in place: with a theme element, only that element changes, its `name` reads back as the name and its `id` as the slug; without one, nothing changes |
| Identifiers.CorrectTwice | lib/__tests__/look_and_feel_util.test.js:45-63 | correcting to "Test Name" and then "Base Theme" reads back test-name/Test Name, then base-theme/Base Theme |
| Doctype.DotsToUnderscores | lib/__tests__/look_and_feel_util.test.js:68-78 | every '.' becomes '_' and every other character is kept |
| Doctype.GetLookAndFeelDoctypeByVersion | lib/__tests__/look_and_feel_util.test.js:73-79 | the DOCTYPE line has the fixed prefix, then the version with ".0" appended, then the DTD address, then the same version with underscores, then ".dtd\">" |
| Doctype.VersionOf | lib/__tests__/look_and_feel_util.test.js:73-79 | a version read back from a DOCTYPE line accounts for the line's length |
| Doctype.VersionRoundTrip | lib/__tests__/look_and_feel_util.test.js:73-79 | reading the version back from the generated DOCTYPE line gives the version |
| Doctype.DoctypeInjective | lib/__tests__/look_and_feel_util.test.js:73-79 | different versions give different DOCTYPE lines |
| Doctype.DoctypeOneZero | lib/__tests__/look_and_feel_util.test.js:73-79 | version "1.0" gives the 1.0.0 DOCTYPE line of the test |
| Doctype.DoctypeSevenZero | lib/__tests__/look_and_feel_util.test.js:65-71 | version "7.0" gives the 7.0.0 DOCTYPE line that the base theme's descriptor carries |
| XmlCache.LookAndFeelXmlCache.constructor | lib/__tests__/look_and_feel_util.test.js:102-116 | an empty cache over the given files, with no disk reads yet |
| XmlCache.LookAndFeelXmlCache.Clear | lib/__tests__/look_and_feel_util.test.js:103-106 | deleting every cache key leaves an empty cache |
| XmlCache.LookAndFeelXmlCache.ReadLookAndFeelXML | lib/__tests__/look_and_feel_util.test.js:102-116 | always returns the descriptor on disk (none if absent); a cached path costs no disk read, an uncached one exactly one, and a found descriptor is cached |
| XmlCache.ReadTwice | lib/__tests__/look_and_feel_util.test.js:102-116 | two reads of the same theme after clearing return its descriptor both times with a single disk read |

## Left out

- `buildXML` (test lines 34-43) is left out. It sorts the JSON into the DTD's element order and serialises it as XML, and its only expected output is a snapshot that is not part of this model.
- `getLookAndFeelDoctype` (lines 65-71) is left out. It reads the DOCTYPE line out of the theme's XML file, which is I/O. `Doctype.DoctypeSevenZero` gives the line that file carries.
- `getLookAndFeelJSON` (lines 81-89) is left out. It parses XML to JSON through a callback; that parser is not part of this model, and `Document.Doc` stands for its result.
- `mergeLookAndFeelJSON` (lines 91-100) is left out. It combines file reads, the theme's parent lookup and `mergeJSON`, and is checked only against a snapshot.
- ThemeMerge.MergeJSON: merging the base descriptor with the parent fixture (lines 141-146) is checked against a snapshot. The table of which tag uses which rule is therefore a parameter (`rules`), not fixed constants.
- ThemeMerge.MergeJSON: key order of the merged theme object is modelled as child tags first, then tags only the parent has. JSON key order is not observable in the tests.
- ThemeMerge.MergeJSON: a descriptor without a `look-and-feel.theme[0]` element is modelled as "no result" (`None`).
- Identifiers.LookAndFeelJSON.CorrectJSONIdentifiers: with no theme element, the descriptor is left unchanged and the method reports `false`.
- Identifiers.Slug: the tests fix only "Test Name" → "test-name" and "Base Theme" → "base-theme". The model uses one complete rule. Only the ASCII letters and digits are word characters, and they are lower-cased. Every other character, including a non-ASCII letter, is a separator and disappears (`Slug("Thé")` is "th"). Each run of separators between two words becomes one hyphen, with none at either end. Case boundaries do not split words (`Slug("TestName")` is "testname").
- Identifiers.LookAndFeelJSON.CorrectJSONIdentifiers: the test title (line 45) says the attributes are set "if the name argument is different". The model always writes both `$.name` and `$.id`, and `Identifiers.CorrectedThemeWhenCurrent` shows this is a no-op when both already match. The two readings differ only on a theme whose `$.name` already equals the argument but whose `$.id` is not its slug. There a guard on the name alone would keep the old id; the model replaces it with the slug. `Identifiers.CorrectLastWins` holds only under the model's unconditional reading.
- Doctype.GetLookAndFeelDoctypeByVersion: the tests fix only two-part versions ("1.0", "7.0"), and those are the inputs in scope. ".0" is appended to every input, so a three-part version such as "7.0.1" becomes "7.0.1.0" and is not passed through as "7.0.1".
- ElementMerge.MergeThemeElementById: repeated ids inside one array are kept. The first array is taken whole, and two elements of the second array with the same new id both survive. The test titles ("exclude repeated elements according to id", line 180) also fit de-duplicating the whole result, which is `ElementMerge.DedupById`. The two readings agree when each array's ids are unique, as ids are within a descriptor array (`ElementMerge.MergeByIdIsUnionById`).
- ElementMerge.MergeThemeElementByValue: repeats inside the first array are kept (`["x", "x"]` merged with `[]` stays `["x", "x"]`). Only values of the second array are checked against what is already there. De-duplicating the whole result is `ElementMerge.Dedup`. The two agree when the first array has no repeats (`ElementMerge.MergeByValueIsDedup`), which is the case line 252 exercises.
- ThemeMerge.MergeTheme: the merged theme element keeps the child's `$` attributes and drops any attribute only the parent has. The tests do not fix this, because the two-document merge is checked only by snapshot (lines 141-146). The merge is single-level: one side's value wins per key, so the `$` key is taken whole from the child.
- ElementMerge.MergeThemeElementById: JavaScript reference identity (`toBe`) is modelled as value equality.
- ElementMerge.MergeThemeElementById: an array item without attributes (a `Text` node) is treated as having no id, where JavaScript would fail on reading `$.id`.
- XmlCache.LookAndFeelXmlCache.ReadLookAndFeelXML: the cache key is the theme path. Building the descriptor's file path from the configured source directory (`pathSrc`, line 24) is not modelled.
- XmlCache.LookAndFeelXmlCache.ReadLookAndFeelXML: the file system is a fixed map and is never written.
- XmlCache.LookAndFeelXmlCache.ReadLookAndFeelXML: a missing descriptor gives `None` and is not cached.
- The option parsing in `lib/options` and the prompt modules are left out; they are outside the look-and-feel helpers.
