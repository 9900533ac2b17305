# PdfFileWriter: layers configuration and page contents, in Dafny

This project models two routines that PdfFileWriter runs when it finishes a
document. Both are written as imperative Dafny, and the model proves what
each one writes.

**The layers control object (`PdfLayers`).** It holds the document's
optional content groups (layers) in the order they were created. It also
holds the display-order tokens of the layers panel:

- a layer;
- the start of a group, titled or not;
- the end of a group.

`CreateDictionary` builds two dictionaries from these lists: the optional
content properties dictionary (section 8.11.4.2 of ISO 32000-1) and its
default configuration (section 8.11.4.3):

- `/OCGs`: every layer, in order.
- `/Locked`: the locked layers, in order.
- `/Order`: the display-order tokens flattened into nested arrays, or
  `/OCGs` when no display order was given.
- `/RBGroups`: the radio-button groups. This pass sorts the labelled layers
  by label and scans runs of equal label. In each run it turns Off every
  layer that is On, except the first On one.
- `/OFF`: the layers that are Off after the radio pass.

**The page (`PdfPage`).** A page collects contents streams. When it is
closed it writes two entries (section 7.7.3.3 of ISO 32000-1):

- `/Contents`: the stream references, in the order the streams were added.
- The resource objects for `/Resources`. With one stream these are that
  stream's own list. With several streams they are the union of all the
  streams' lists. The union is built by binary search and insertion into a
  list kept sorted, so it has no duplicates.

The `StringBuilder` text is modelled as a sequence of tokens:

| token | text |
|---|---|
| `Open` | `[` |
| `Close` | `]` |
| `Ref(n)` | `n 0 R` |
| `Space` | the separator after a reference |
| `Title(s)` | a group title |

`Length--` removes the last token. The conditional trim of a trailing
separator removes a trailing `Space`. The routines are modelled as the code
behaves, with no extra preconditions:

- A layers object without layers writes a lone `]` as `/OCGs`.
- Unbalanced group tokens give an `/Order` that is not an array.
  `OrderIsArrayIffWellNested` states exactly when the array is well formed.

Files:

| file | module | contents |
|---|---|---|
| `tokens.dfy` | `PdfTokens` | the token model and the shapes of reference arrays |
| `layer_model.dfy` | `LayerModel` | layers, order tokens, and the filtered lists of object numbers |
| `layer_order.dfy` | `LayerOrder` | flattening the display order |
| `radio_groups.dfy` | `RadioGroups` | the label sort, the radio pass and `/RBGroups` |
| `pdf_layers.dfy` | `PdfLayersModel` | the `PdfLayers` class and `CreateDictionary` |
| `sorted_resources.dfy` | `SortedResources` | binary search and insert-if-absent |
| `pdf_page.dfy` | `PdfPageModel` | the page, `AddContents`, `GetCurrentContents` and `CloseObject` |

## Model

| member | source | states |
|---|---|---|
| PdfLayersModel.PdfLayers.Create | PdfFileWriter/PdfLayers.cs:81-100 | If the document already has a layers object, the call fails with "PdfLayers is already defined" and the document is unchanged. Otherwise a new object is installed in the document, with the given name and empty layer and order lists. |
| PdfLayersModel.PdfLayers.constructor | PdfFileWriter/PdfLayers.cs:91-98 | The name is saved, and the layer and order lists start empty. |
| PdfLayersModel.PdfLayers.DisplayOrder | PdfFileWriter/PdfLayers.cs:106-113 | Exactly one layer token is appended at the end of the order list, and nothing else changes. |
| PdfLayersModel.PdfLayers.DisplayOrderStartGroup | PdfFileWriter/PdfLayers.cs:119-126 | Exactly one group-start token, carrying the name (default ""), is appended at the end of the order list. |
| PdfLayersModel.PdfLayers.DisplayOrderEndGroup | PdfFileWriter/PdfLayers.cs:131-135 | Exactly one group-end token is appended at the end of the order list. |
| PdfLayersModel.PdfLayers.CreateDictionary | PdfFileWriter/PdfLayers.cs:138-267 | Both lists are left as they were, and every entry is stated: /OCGs; Name and ListMode; /Locked omitted when no layer is locked; /Order equal to /OCGs when the order list is empty and otherwise the flattened order; /RBGroups over a label-sorted permutation of the radio layers; the states left by the radio pass, with non-radio layers unchanged; /OFF from the states after the pass. |
| PdfLayersModel.LayerEntries | PdfFileWriter/PdfLayers.cs:141-171 | /OCGs is the closed array of all layers. /Locked is the optional array of the locked layers. The radio layers are those with a non-blank label, in list order. |
| PdfLayersModel.CollectLayers | PdfFileWriter/PdfLayers.cs:141-149 | After the loop, the three builders hold "[" followed by "n 0 R " for each layer, "[" followed by the same for each locked layer, and the list of radio layers. |
| PdfLayersModel.OcgsEntryShape | PdfFileWriter/PdfLayers.cs:144-154 | /OCGs references every layer exactly once, in list order. With at least one layer it is one balanced array whose separators all sit between two references. |
| LayerModel.LockedNumbersMembers | PdfFileWriter/PdfLayers.cs:147 | A number is listed in /Locked exactly when a layer with that number is locked. |
| LayerModel.RadioMembersSubset | PdfFileWriter/PdfLayers.cs:148 | The radio layers are exactly the listed layers whose label is not null or white space, each taken once. |
| PdfTokens.OptionalArrayShape | PdfFileWriter/PdfLayers.cs:166-171 | An optional entry is omitted exactly when its list is empty. When written, it references the list in order, is one balanced array, and has no stray separator. |
| PdfTokens.ClosedArray | PdfFileWriter/PdfLayers.cs:150-151 | Removing the last character of "[n1 0 R ... nk 0 R " and appending "]" gives the reference array of n1..nk. With no numbers it gives a lone "]". |
| LayerOrder.FlattenOrder | PdfFileWriter/PdfLayers.cs:180-201 | The loop over the order tokens writes exactly the /Order array given by the token-by-token specification. |
| LayerOrder.OrderRefs | PdfFileWriter/PdfLayers.cs:180-201 | Apart from brackets and titles, /Order references the layer tokens in token order. Its titles are the non-empty group names, in order. |
| LayerOrder.FoldCounts | PdfFileWriter/PdfLayers.cs:181-198 | The builder after the loop references the layer tokens in token order and holds the non-empty titles. Its bracket depth is one plus the number of group starts minus group ends. |
| LayerOrder.OrderIsArrayIffWellNested | PdfFileWriter/PdfLayers.cs:180-201 | /Order is one balanced array whose first "[" is closed only by the last "]" if and only if every group end closes an open group and every group is closed. |
| LayerOrder.OrderSeparated | PdfFileWriter/PdfLayers.cs:185-200 | /Order never has a separator before "[", before "]" or at its end, and never has two adjacent references. A title always directly follows "[" and is never empty. |
| PdfLayersModel.RadioEntries | PdfFileWriter/PdfLayers.cs:204-262 | The radio pass and /OFF together: /OFF reads the states the pass leaves, and layers that are not radio layers keep their state. |
| PdfLayersModel.RadioButtonGroups | PdfFileWriter/PdfLayers.cs:205-248 | With at most one radio layer, nothing is written and nothing changes. Otherwise the layers are sorted by label, /RBGroups is written from the sorted list, and the states become the radio pass of the old states in sorted order. |
| RadioGroups.SortByLabel | PdfFileWriter/PdfLayers.cs:207 | The result is a permutation of the radio layers, sorted by label. |
| RadioGroups.SortedIsGrouped | PdfFileWriter/PdfLayers.cs:207-214 | After sorting, layers with the same label are adjacent. |
| RadioGroups.RunLength | PdfFileWriter/PdfLayers.cs:214-217 | The inner scan stops at the end of the run of layers labelled like the layer at Ptr. |
| RadioGroups.ForceRadioRuns | PdfFileWriter/PdfLayers.cs:208-242 | The run loop writes "[" followed by one group per run of two or more layers, skipping single layers. It leaves every layer in the state the radio pass gives it. |
| RadioGroups.ForceOneRun | PdfFileWriter/PdfLayers.cs:223-241 | One run of two or more layers is written as the reference array of its layers, in sorted order. Inside the run, each On layer after the run's first On layer is turned Off; layers outside the run keep their state. |
| RadioGroups.ForceLayer | PdfFileWriter/PdfLayers.cs:227-238 | One step of the inner loop. The layer's reference is written. If the layer is On and an earlier layer of the run was On, it is turned Off; no other layer changes. |
| RadioGroups.RunStep | PdfFileWriter/PdfLayers.cs:211-242 | A run ends where the next run starts. /RBGroups gains that run's group exactly when the run has two or more layers. A single layer keeps its state. |
| RadioGroups.RunForcedByPass | PdfFileWriter/PdfLayers.cs:224-239 | Forcing within one run, based on the first On layer of that run, agrees with the radio pass over the whole sorted list. |
| RadioGroups.RadioAtMostOneOn | PdfFileWriter/PdfLayers.cs:224-239 | After the pass, two layers with the same label are never both On. |
| RadioGroups.RadioKeepsFirstOn | PdfFileWriter/PdfLayers.cs:228-233 | If some layer of a label was On, the first On layer of that label in sorted order stays On. |
| RadioGroups.RadioOnlyForcesOff | PdfFileWriter/PdfLayers.cs:236 | The pass changes a state only from On to Off, and only for a layer whose label another layer shares. |
| RadioGroups.RBGroupsRefs | PdfFileWriter/PdfLayers.cs:205-247 | When written, /RBGroups references exactly the layers whose label is shared, in sorted order. It is omitted exactly when no two radio layers share a label. |
| RadioGroups.RBBodyRefs | PdfFileWriter/PdfLayers.cs:211-242 | The groups written from a run start onward reference exactly the shared-label layers from there on. |
| RadioGroups.NoneSharedIffDistinctLabels | PdfFileWriter/PdfLayers.cs:220 | No layer shares its label exactly when all labels differ. |
| PdfLayersModel.OffEntry | PdfFileWriter/PdfLayers.cs:250-262 | /OFF is the array of the Off layers, in list order, and is omitted when no layer is Off. |
| PdfLayersModel.CollectOff | PdfFileWriter/PdfLayers.cs:250-254 | The builder holds "[" followed by "n 0 R " for each Off layer. |
| LayerModel.OffNumbersMembers | PdfFileWriter/PdfLayers.cs:253 | A number is listed in /OFF exactly when a layer with that number is Off. |
| PdfPageModel.Page.constructor | PdfFileWriter/PdfPage.cs:219 | A page starts without a contents list; the first AddContents creates it. |
| PdfPageModel.Page.AddContents | PdfFileWriter/PdfPage.cs:210-224 | The stream is marked as page contents and appended at the end of the list, which is created if it was null. Earlier streams keep their places, and the stream's resources are untouched. It becomes the current contents, and a created list is never empty. |
| PdfPageModel.Page.CurrentContents | PdfFileWriter/PdfPage.cs:230-233 | There is no current contents exactly when the list is null or empty. Otherwise the current contents is one of the page's streams (the last one added). |
| PdfPageModel.Page.CloseObject | PdfFileWriter/PdfPage.cs:239-291 | No list: no entries. One stream: "[n 0 R]" and that stream's own resource list, unchanged. Several streams: their references in order, and a strictly sorted resource list whose elements are exactly the resources of the streams. |
| PdfPageModel.ContentsReferences | PdfFileWriter/PdfPage.cs:255-258 | The builder holds "[" followed by "n 0 R " for each stream, in addition order. |
| PdfPageModel.MergeResources | PdfFileWriter/PdfPage.cs:266-282 | The merged list is strictly sorted. As a set it is the union of the resource lists of the streams that have one. |
| PdfPageModel.ResourceUnionMembers | PdfFileWriter/PdfPage.cs:269-281 | A resource is in the union exactly when some stream with resources lists it. Streams without resources contribute nothing. |
| PdfPageModel.MergedResourcesUnique | PdfFileWriter/PdfPage.cs:269-282 | The merged list depends only on which streams the page has, not on their order or the order of their resources. |
| SortedResources.BinarySearch | PdfFileWriter/PdfPage.cs:278 | On a strictly sorted list, the search returns the index of the element if it is present. Otherwise it returns the complement of the position where the element belongs. |
| SortedResources.InsertIfAbsent | PdfFileWriter/PdfPage.cs:278-279 | Search-then-insert keeps the list strictly sorted, adds exactly the one element, and leaves the list alone if the element is already there. |
| SortedResources.StrictlySortedUnique | PdfFileWriter/PdfPage.cs:266-282 | Two strictly sorted lists with the same elements are equal. |

## Left out

- `PdfLayer` (its constructor, its properties and `CompareTo`) is not part of this model.
  - `AddLayer` stands in for a layer registering itself in the list.
  - A layer's object number, lock flag and label are constants. Only its state changes while the dictionary is built.
- RadioGroups.SortByLabel: `List.Sort` uses `PdfLayer.CompareTo`, which is not part of this model. The sort is modelled as ordinal comparison of labels, and layers with equal labels may end up in any order. So `CreateDictionary` is stated against any label-sorted permutation of the radio layers, returned as a ghost result.
- RadioGroups.RunLength: `string.Compare` is culture-sensitive. The model compares labels for equality, so labels that compare equal under a culture but differ as strings are not modelled.
- Writing the dictionaries is not modelled:
  - `Dictionary.Add`, `AddFormat`, `AddPdfString`, `AddName` and `AddDictionary`;
  - `TextToPdfString`, for group titles;
  - `BuildResourcesDictionary`.

  The entries are returned as values: token sequences, the name, the list mode and the resource object numbers.
- `PdfObject`, its object-number allocation and its comparer are not part of this model. Resource objects and streams are identified by object number, and resources are ordered by it.
- The document class is reduced to its `Layers` property, because `PdfDocument` is not part of this model.
- The page-size constructors, `PageSize()` and `ConstructorHelper` are left out. They are `double` arithmetic and document registration, and have no bearing on the contents and resources entries.
- Null arguments are left out: a null layer, a null group name, a null contents stream. A null radio-button label is modelled as the empty string, which is blank as well.
- The `Name` and `ListMode` properties are plain auto-properties; they are fields of the class.
