# Custom properties loader — a Dafny model

This project models the discovery-and-merge pass of
`CustomPropertiesFileApplicationListener`. The pass runs once while a Spring
Boot application prepares its environment. Its inner class `PropertiesLoader`
does three things:

1. **Discovery.** It walks the class-path root directory recursively and
   collects the base name of every non-directory entry ending in
   `.properties`. The names go into a `LinkedHashSet`: each name is kept
   once, in the order it was first found.
2. **Probing.** For each of the four search locations `classpath:/`,
   `classpath:/config/`, `file:./` and `file:./config/` (outer loop), and for
   each discovered name (inner loop), it calls `doLoad(location + name)`.
3. **Merge or install.** `doLoad` resolves the location to a resource.
   - A missing resource is skipped.
   - A resource whose file name is absent or lacks the suffix is skipped.
   - A resource whose text cannot be decoded throws, which ends the pass.
   - Otherwise the decoded pairs are merged (`putAll`) into the property
     source called `CustomProperties`. If there is no such source yet, a new
     one holding exactly these pairs is appended last, with the lowest
     precedence.

The environment is abstract:
- The class-path tree is a finite `FileTree.Entry` value.
- Resource lookup, `exists`, `getFilename` and property decoding together are
  one total function `resolve: string -> Resource`.
- The environment's property sources are a `MutablePropertySources` object
  holding a `seq<Layer>`.

The loader is a class. Its methods are proved against reference
functions:
- `PropertiesLoader.DoSearch` and `LinkedSet.InsertAll`, which is insertion
  into an ordered set.
- `PropertiesLoader.DoLoad` and `LoadOne`.
- `PropertiesLoader.Load`, `ProbeAll` and `ProbeRow`, and `Run` over the
  probe sequence `Probes(locations, names)`.

A ghost field `Probed` records every location `doLoad` was called with, so
the probe order is part of the methods' contracts. Module `RunProperties`
proves what a whole pass guarantees:
- the discovery rule;
- the probe count and order;
- that the first load appends;
- that later loads merge, with the last writer winning;
- that there is never more than one `CustomProperties` source;
- that a decode failure ends the pass at the first failing probe.

Two behaviours of the code that the model keeps as written:

- **Non-directory entries.** The code adds any entry for which
  `isDirectory()` is false, not only regular files.
- **Cycles.** The code has no guard against cyclic directory structures. The
  model's tree is finite, so the question does not arise.

Files:
- `wrappers.dfy`: `Option`.
- `linked_set.dfy`: the ordered set and the `NameSet` class.
- `strings.dfy`: `EndsWith` and the comma split.
- `search_locations.dfy`: the search-location constant.
- `file_tree.dfy`: the directory tree and what the walk collects.
- `property_sources.dfy`: the store of named property sources.
- `properties_loader.dfy`: the loader.
- `run_properties.dfy`: properties of a whole pass.

## Model

| member | source | states |
|---|---|---|
| LinkedSet.Insert | propertyload-spring-boot-starter/src/main/java/com/study/boot/config/CustomPropertiesFileApplicationListener.java:107 | `LinkedHashSet.add` on the ordered contents: a name already present leaves them as they are, a new one goes to the end |
| LinkedSet.InsertAll | propertyload-spring-boot-starter/src/main/java/com/study/boot/config/CustomPropertiesFileApplicationListener.java:107 | adding names one after the other, in order, with `Insert` |
| Strings.EndsWith | propertyload-spring-boot-starter/src/main/java/com/study/boot/config/CustomPropertiesFileApplicationListener.java:122 | `String.endsWith`: the last characters of the string are exactly the suffix; case-sensitive, and true for the suffix itself |
| Strings.Split | propertyload-spring-boot-starter/src/main/java/com/study/boot/config/CustomPropertiesFileApplicationListener.java:145 | the comma split inside `commaDelimitedListToSet`: no entries for the empty string, otherwise every field between commas, empty fields included, untrimmed |
| FileTree.Listing | propertyload-spring-boot-starter/src/main/java/com/study/boot/config/CustomPropertiesFileApplicationListener.java:100-110 | the names `doSearch` adds, in walk order and with repeats: a directory contributes its children's names in listing order, any other entry its own name if it ends with the suffix |
| FileTree.ListingSeq | propertyload-spring-boot-starter/src/main/java/com/study/boot/config/CustomPropertiesFileApplicationListener.java:103-105 | the names the loop over a directory's children adds, child after child |
| PropertiesLoading.Discover | propertyload-spring-boot-starter/src/main/java/com/study/boot/config/CustomPropertiesFileApplicationListener.java:81-82 | the names in the set after `searchAllFiles` fills a new `LinkedHashSet` from the tree |
| PropertiesLoading.CustomProps | propertyload-spring-boot-starter/src/main/java/com/study/boot/config/CustomPropertiesFileApplicationListener.java:125 | the pairs of the source `get("CustomProperties")` finds, or none when there is no such source |
| PropertiesLoading.Install | propertyload-spring-boot-starter/src/main/java/com/study/boot/config/CustomPropertiesFileApplicationListener.java:125-133 | what a successful load does to the sources: `putAll` into the `CustomProperties` source if `get` finds one, otherwise `addLast` of a new source holding the pairs |
| PropertiesLoading.LoadOne | propertyload-spring-boot-starter/src/main/java/com/study/boot/config/CustomPropertiesFileApplicationListener.java:112-142 | one `doLoad` on a resolved resource: sources unchanged for a missing resource or a file name that is absent or lacks `.properties`; `Install` of the decoded pairs; a throw at the location, sources unchanged, when decoding fails |
| PropertiesLoading.Row | propertyload-spring-boot-starter/src/main/java/com/study/boot/config/CustomPropertiesFileApplicationListener.java:87-90 | the paths of the inner loop for one location: `location + name` for each name, in set order |
| PropertiesLoading.Probes | propertyload-spring-boot-starter/src/main/java/com/study/boot/config/CustomPropertiesFileApplicationListener.java:86-91 | the paths of the whole nest: the rows of the locations one after the other, locations outermost |
| PropertiesLoading.Run | propertyload-spring-boot-starter/src/main/java/com/study/boot/config/CustomPropertiesFileApplicationListener.java:86-91 | `doLoad` on each path in order from the given sources, the first throw ending the nest with the sources as they were then |
| PropertiesLoading.Attempted | propertyload-spring-boot-starter/src/main/java/com/study/boot/config/CustomPropertiesFileApplicationListener.java:86-91 | the paths `doLoad` is actually called with: all of them, or those up to and including the first that throws |
| RunProperties.Loaded | propertyload-spring-boot-starter/src/main/java/com/study/boot/config/CustomPropertiesFileApplicationListener.java:124 | the decoded maps of the probes that load, in probe order |
| RunProperties.MergeAll | propertyload-spring-boot-starter/src/main/java/com/study/boot/config/CustomPropertiesFileApplicationListener.java:129 | the result of `putAll` of each map in turn into an empty map |
| LinkedSet.NameSet.constructor | propertyload-spring-boot-starter/src/main/java/com/study/boot/config/CustomPropertiesFileApplicationListener.java:81 | a new `LinkedHashSet` is empty |
| LinkedSet.NameSet.Add | propertyload-spring-boot-starter/src/main/java/com/study/boot/config/CustomPropertiesFileApplicationListener.java:107 | `add` appends a name that is not yet present and leaves the set unchanged otherwise; it reports `true` exactly when the name was new |
| LinkedSet.InsertAllConcat | propertyload-spring-boot-starter/src/main/java/com/study/boot/config/CustomPropertiesFileApplicationListener.java:103-105 | adding the names of one child, then the next, is the same as adding all of them in order |
| LinkedSet.InsertAllMembers | propertyload-spring-boot-starter/src/main/java/com/study/boot/config/CustomPropertiesFileApplicationListener.java:107 | after adding names, a name is present exactly when it was present before or was added |
| LinkedSet.InsertAllDistinct | propertyload-spring-boot-starter/src/main/java/com/study/boot/config/CustomPropertiesFileApplicationListener.java:81 | the set never holds a name twice |
| LinkedSet.InsertAllKeepsPrefix | propertyload-spring-boot-starter/src/main/java/com/study/boot/config/CustomPropertiesFileApplicationListener.java:107 | names already in the set stay, at the same positions |
| LinkedSet.InsertAllFirstPosition | propertyload-spring-boot-starter/src/main/java/com/study/boot/config/CustomPropertiesFileApplicationListener.java:107 | a name sits at the position of its first insertion, after everything inserted before it, and later repeats do not move it |
| LinkedSet.InsertAllPresent | propertyload-spring-boot-starter/src/main/java/com/study/boot/config/CustomPropertiesFileApplicationListener.java:107 | adding names that are all present changes nothing |
| LinkedSet.InsertAllFresh | propertyload-spring-boot-starter/src/main/java/com/study/boot/config/CustomPropertiesFileApplicationListener.java:145 | building a set from distinct new entries keeps all of them, in order |
| Strings.Fields | propertyload-spring-boot-starter/src/main/java/com/study/boot/config/CustomPropertiesFileApplicationListener.java:145 | a split gives at least one field, and no field contains the separator |
| Strings.FieldsOfPrefixed | propertyload-spring-boot-starter/src/main/java/com/study/boot/config/CustomPropertiesFileApplicationListener.java:145 | a separator-free field followed by the separator splits off as exactly one entry |
| Strings.FieldsOfFree | propertyload-spring-boot-starter/src/main/java/com/study/boot/config/CustomPropertiesFileApplicationListener.java:145 | a string without the separator splits into itself alone |
| Strings.SplitJoin | propertyload-spring-boot-starter/src/main/java/com/study/boot/config/CustomPropertiesFileApplicationListener.java:145 | splitting undoes joining, for separator-free parts that are not just one empty part |
| SearchLocations.JoinSearchLocations | propertyload-spring-boot-starter/src/main/java/com/study/boot/config/CustomPropertiesFileApplicationListener.java:34 | the four locations joined with commas are the constant `DEFAULT_SEARCH_LOCATIONS` |
| SearchLocations.SearchLocationsSplit | propertyload-spring-boot-starter/src/main/java/com/study/boot/config/CustomPropertiesFileApplicationListener.java:144-146 | splitting the constant at commas gives exactly `classpath:/`, `classpath:/config/`, `file:./`, `file:./config/`, in that order |
| SearchLocations.SearchLocationsDistinct | propertyload-spring-boot-starter/src/main/java/com/study/boot/config/CustomPropertiesFileApplicationListener.java:34 | no location is listed twice |
| FileTree.ListingMembers | propertyload-spring-boot-starter/src/main/java/com/study/boot/config/CustomPropertiesFileApplicationListener.java:100-110 | the walk yields a name exactly when some non-directory entry of the tree has that name and the name ends with the suffix; a directory's own name never counts |
| FileTree.ListingSeqMembers | propertyload-spring-boot-starter/src/main/java/com/study/boot/config/CustomPropertiesFileApplicationListener.java:101-105 | walking a directory's children yields a name exactly when one of the children's subtrees holds a matching file of that name |
| FileTree.ListingSuffix | propertyload-spring-boot-starter/src/main/java/com/study/boot/config/CustomPropertiesFileApplicationListener.java:106-107 | every name the walk yields ends with the suffix |
| FileTree.MatchingFileSuffix | propertyload-spring-boot-starter/src/main/java/com/study/boot/config/CustomPropertiesFileApplicationListener.java:106-107 | a matching file's name ends with the suffix |
| PropertySources.Find | propertyload-spring-boot-starter/src/main/java/com/study/boot/config/CustomPropertiesFileApplicationListener.java:125 | `get(name)` finds the first source with that name, or reports none exactly when no source has it |
| PropertySources.FindAppended | propertyload-spring-boot-starter/src/main/java/com/study/boot/config/CustomPropertiesFileApplicationListener.java:130-133 | after a new source is appended to a list without one of that name, lookup finds the new source, last |
| PropertySources.FindUpdated | propertyload-spring-boot-starter/src/main/java/com/study/boot/config/CustomPropertiesFileApplicationListener.java:126-129 | after the found source's pairs are updated in place, lookup still finds it at the same position |
| PropertySources.MutablePropertySources.Get | propertyload-spring-boot-starter/src/main/java/com/study/boot/config/CustomPropertiesFileApplicationListener.java:125 | `get` on the store: a position holding a source of that name, or none exactly when there is none |
| PropertySources.MutablePropertySources.AddLast | propertyload-spring-boot-starter/src/main/java/com/study/boot/config/CustomPropertiesFileApplicationListener.java:132 | `addLast` puts the source at the end, after removing an earlier source of the same name if there is one |
| PropertySources.MutablePropertySources.PutAll | propertyload-spring-boot-starter/src/main/java/com/study/boot/config/CustomPropertiesFileApplicationListener.java:129 | `putAll` into one source's map: given keys take the given values, other keys and all other sources are unchanged |
| PropertiesLoading.GetConfigLocation | propertyload-spring-boot-starter/src/main/java/com/study/boot/config/CustomPropertiesFileApplicationListener.java:144-146 | the search locations, none repeated |
| PropertiesLoading.ConfigLocationIsSplit | propertyload-spring-boot-starter/src/main/java/com/study/boot/config/CustomPropertiesFileApplicationListener.java:144-146 | the locations are the set built from the comma split of `DEFAULT_SEARCH_LOCATIONS` |
| PropertiesLoading.InstallAppends | propertyload-spring-boot-starter/src/main/java/com/study/boot/config/CustomPropertiesFileApplicationListener.java:130-133 | with no `CustomProperties` source, a load appends one source holding exactly the loaded pairs after all others, which keep their order; it is then the one found |
| PropertiesLoading.InstallMerges | propertyload-spring-boot-starter/src/main/java/com/study/boot/config/CustomPropertiesFileApplicationListener.java:125-129 | with a `CustomProperties` source, a load adds no source: loaded keys take loaded values, other keys and other sources keep theirs |
| PropertiesLoading.InstallAtMostOne | propertyload-spring-boot-starter/src/main/java/com/study/boot/config/CustomPropertiesFileApplicationListener.java:125-133 | a load never creates a second `CustomProperties` source |
| PropertiesLoading.InstallCustomProps | propertyload-spring-boot-starter/src/main/java/com/study/boot/config/CustomPropertiesFileApplicationListener.java:125-133 | after a load, the `CustomProperties` pairs are the old ones overwritten by the loaded ones |
| PropertiesLoading.LoadOneEffects | propertyload-spring-boot-starter/src/main/java/com/study/boot/config/CustomPropertiesFileApplicationListener.java:112-142 | one `doLoad`: anything that does not load leaves the sources alone; a decodable resource is installed; it throws exactly when a suffixed resource does not decode, at that location |
| PropertiesLoading.RunDoneIff | propertyload-spring-boot-starter/src/main/java/com/study/boot/config/CustomPropertiesFileApplicationListener.java:86-91 | a pass completes exactly when none of its probes fails to decode |
| PropertiesLoading.RunAbortedExtends | propertyload-spring-boot-starter/src/main/java/com/study/boot/config/CustomPropertiesFileApplicationListener.java:135-138 | once a pass has thrown, later probes change nothing |
| PropertiesLoading.RunSnoc | propertyload-spring-boot-starter/src/main/java/com/study/boot/config/CustomPropertiesFileApplicationListener.java:86-91 | one more probe runs `doLoad` on the sources the earlier probes left, unless they threw |
| PropertiesLoading.RunAppend | propertyload-spring-boot-starter/src/main/java/com/study/boot/config/CustomPropertiesFileApplicationListener.java:86-91 | the probes of a later row start from the sources the earlier rows left, unless those threw |
| PropertiesLoading.AttemptedAll | propertyload-spring-boot-starter/src/main/java/com/study/boot/config/CustomPropertiesFileApplicationListener.java:86-91 | without a decode failure every path is probed |
| PropertiesLoading.AttemptedStops | propertyload-spring-boot-starter/src/main/java/com/study/boot/config/CustomPropertiesFileApplicationListener.java:135-138 | probing stops right after the first path that fails to decode |
| PropertiesLoading.AttemptedAppend | propertyload-spring-boot-starter/src/main/java/com/study/boot/config/CustomPropertiesFileApplicationListener.java:86-91 | paths that all complete are all probed, then the following ones |
| PropertiesLoading.AttemptedExtends | propertyload-spring-boot-starter/src/main/java/com/study/boot/config/CustomPropertiesFileApplicationListener.java:135-138 | paths after a failing one are never probed |
| PropertiesLoading.AbortAt | propertyload-spring-boot-starter/src/main/java/com/study/boot/config/CustomPropertiesFileApplicationListener.java:135-138 | a probe that throws after completed ones ends the pass with the sources they left, having probed exactly up to it |
| PropertiesLoading.RowThrows | propertyload-spring-boot-starter/src/main/java/com/study/boot/config/CustomPropertiesFileApplicationListener.java:86-91 | a location whose row throws ends the whole pass, with the probes of earlier rows followed by those of that row |
| PropertiesLoading.ProbesStep | propertyload-spring-boot-starter/src/main/java/com/study/boot/config/CustomPropertiesFileApplicationListener.java:86-91 | each location adds its row after the rows of the locations before it |
| PropertiesLoading.ProbesPrefix | propertyload-spring-boot-starter/src/main/java/com/study/boot/config/CustomPropertiesFileApplicationListener.java:86-91 | the probes of the first locations come first among all probes |
| PropertiesLoading.PropertiesLoader.constructor | propertyload-spring-boot-starter/src/main/java/com/study/boot/config/CustomPropertiesFileApplicationListener.java:68-75 | the loader keeps the environment it is given; `resolve` stands for the resource loader in effect, which is the default one when the caller passes none |
| PropertiesLoading.PropertiesLoader.DoSearch | propertyload-spring-boot-starter/src/main/java/com/study/boot/config/CustomPropertiesFileApplicationListener.java:100-110 | the set becomes the old set with the walk's names added in walk order |
| PropertiesLoading.PropertiesLoader.DoLoad | propertyload-spring-boot-starter/src/main/java/com/study/boot/config/CustomPropertiesFileApplicationListener.java:112-142 | the sources become what `LoadOne` says; it throws at `location` exactly when the resource fails to decode; the call is recorded |
| PropertiesLoading.PropertiesLoader.Load | propertyload-spring-boot-starter/src/main/java/com/study/boot/config/CustomPropertiesFileApplicationListener.java:77-92 | the sources become the result of probing every search location with every discovered name; it throws where that run throws, and records exactly the probes made |
| PropertiesLoading.PropertiesLoader.ProbeAll | propertyload-spring-boot-starter/src/main/java/com/study/boot/config/CustomPropertiesFileApplicationListener.java:86-91 | the outer loop: the sources and status are those of the run over all probes, locations outermost, and the recorded probes are those attempted |
| PropertiesLoading.PropertiesLoader.ProbeRow | propertyload-spring-boot-starter/src/main/java/com/study/boot/config/CustomPropertiesFileApplicationListener.java:87-90 | the inner loop: the sources and status are those of the run over one location's row, and the recorded probes are those attempted |
| RunProperties.DiscoveryRule | propertyload-spring-boot-starter/src/main/java/com/study/boot/config/CustomPropertiesFileApplicationListener.java:100-110 | a name is discovered exactly when a non-directory entry of the tree has it and it ends with `.properties`; discovered names are distinct |
| RunProperties.DiscoverSameNameTwice | propertyload-spring-boot-starter/src/main/java/com/study/boot/config/CustomPropertiesFileApplicationListener.java:100-110 | example: two directories each holding `app.properties`, and a directory named `x.properties`, give the single name `app.properties` |
| RunProperties.DiscoveredSuffix | propertyload-spring-boot-starter/src/main/java/com/study/boot/config/CustomPropertiesFileApplicationListener.java:106-107 | every discovered name ends with `.properties` |
| RunProperties.ProbesLength | propertyload-spring-boot-starter/src/main/java/com/study/boot/config/CustomPropertiesFileApplicationListener.java:86-91 | there are exactly `L × N` probes for `L` locations and `N` names |
| RunProperties.ProbeAt | propertyload-spring-boot-starter/src/main/java/com/study/boot/config/CustomPropertiesFileApplicationListener.java:86-91 | probe number `i × N + j` is location `i` followed by name `j`: locations outer, names inner |
| RunProperties.LoadProbeCount | propertyload-spring-boot-starter/src/main/java/com/study/boot/config/CustomPropertiesFileApplicationListener.java:84-91 | a pass makes four probes per discovered name |
| RunProperties.NoNamesNoProbes | propertyload-spring-boot-starter/src/main/java/com/study/boot/config/CustomPropertiesFileApplicationListener.java:86-91 | with no discovered names nothing is probed and the sources are untouched |
| RunProperties.MergeAllKeys | propertyload-spring-boot-starter/src/main/java/com/study/boot/config/CustomPropertiesFileApplicationListener.java:129 | the merged keys are exactly the keys of the loaded maps |
| RunProperties.MergeAllLastWins | propertyload-spring-boot-starter/src/main/java/com/study/boot/config/CustomPropertiesFileApplicationListener.java:129 | a key takes the value of the last loaded map that has it |
| RunProperties.InstallTwice | propertyload-spring-boot-starter/src/main/java/com/study/boot/config/CustomPropertiesFileApplicationListener.java:125-133 | two loads in a row leave the sources as one load of both maps merged in order |
| RunProperties.RunMerges | propertyload-spring-boot-starter/src/main/java/com/study/boot/config/CustomPropertiesFileApplicationListener.java:125-133 | a completed pass leaves the sources untouched if nothing loaded, and otherwise as one install of everything loaded, merged in probe order |
| RunProperties.RunCustomProps | propertyload-spring-boot-starter/src/main/java/com/study/boot/config/CustomPropertiesFileApplicationListener.java:125-133 | after a completed pass, the `CustomProperties` pairs are the old ones overwritten by every loaded map in probe order |
| RunProperties.LastWriterWins | propertyload-spring-boot-starter/src/main/java/com/study/boot/config/CustomPropertiesFileApplicationListener.java:126-129 | after a completed pass, a key holds the value of the last loaded file that defines it |
| RunProperties.FirstLoadAppends | propertyload-spring-boot-starter/src/main/java/com/study/boot/config/CustomPropertiesFileApplicationListener.java:130-133 | without a prior `CustomProperties` source, a completed pass that loads something appends exactly one source, last, with the merged pairs |
| RunProperties.RunKeepsAtMostOne | propertyload-spring-boot-starter/src/main/java/com/study/boot/config/CustomPropertiesFileApplicationListener.java:125-133 | a pass, completed or thrown, never leaves two `CustomProperties` sources |
| RunProperties.RunAbortedAt | propertyload-spring-boot-starter/src/main/java/com/study/boot/config/CustomPropertiesFileApplicationListener.java:135-138 | a pass that throws does so at the first path that fails to decode, with the sources as the earlier probes left them |

## Left out

- The listener plumbing is not modelled: `supportsEventType`, `supportsSourceType`, the dispatch in `onApplicationEvent`, `getOrder` and `DEFAULT_ORDER`. It is framework registration and holds no loading logic.
- `getBasePath` is not modelled. It is a class-loader URL lookup. The class-path root arrives as the tree argument of `Load`.
- `searchAllFiles` is folded into `Load`. Its only work is `new File(location)`, which is the environment handing over the tree.
- `File.isDirectory` and `listFiles` are replaced by the `Entry` datatype. A `listFiles` that returns null, which makes the Java code fail, is not modelled.
- Resource resolution and decoding are one opaque function. `getResource`, `exists`, `getFilename` and `PropertiesLoaderUtils.loadProperties` belong to the library.
  - A null resource and a non-existent one are both `Missing`.
  - An `IOException` (wrapped in a `RuntimeException`) and any other decoding exception are both `Undecodable`. Either one ends the pass. Only the Java exception type differs.
- Exceptions are returned as `Status.Thrown(location)` instead of being thrown. Logging and `printStackTrace` are left out.
- The model does not raise the `ClassCastException` that occurs when a `CustomProperties` source exists but is not a `PropertiesPropertySource`. Every source in the model is a plain string map.
- Property values are strings. Java `Properties` hold objects, and the loaded ones are strings.
- `StringUtils.commaDelimitedListToSet` is modelled as a split at every comma with no trimming, followed by building the ordered set. The null-string case does not arise, because the constant is fixed.
- `DEFAULT_SEARCH_LOCATIONS` is written as the concatenation of its four comma-terminated pieces. This is the same string as the Java literal.
- Symbolic links and cyclic directories are not modelled. The tree is a finite value.
- PropertiesLoading.PropertiesLoader.constructor: the Java constructor substitutes a new `DefaultResourceLoader` when it is passed a null resource loader, which the only caller does. The model takes `resolve` as the resource loader in effect, so that null case has no counterpart.
