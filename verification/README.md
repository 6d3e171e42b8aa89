# kfctl: a verified model of its operator and configuration engine

kfctl deploys Kubeflow from a KfDef, as a command-line tool and as a Kubernetes operator. This project
models the parts of it where state, order and naming interact, and proves what they keep. Verify with
`dafny verify dfyconfig.toml`.

What is modelled:

- **The operator.** `ApiServer` is a Kubernetes API server with versions, optimistic concurrency and
  finalizers. `Reconciler` is the KfDef reconciler as a transition function: everything the process does
  not decide itself (replies, stale or failed reads, writes of other clients between any two calls, the
  order of Go's map iteration, file system) comes from a script, so a statement for all scripts is one
  for all interleavings. `OperatorProcess` is the process with its package globals, updated in place and
  proved equal to that function. On top stand five groups of results: finalizer removal, what a reconcile
  answers and what the work queue makes of it (`Outcomes`), the second controller, safety of the operator's
  own removal, and progress towards it.
- **The kustomization merge.** `Merging` folds a base and overlays into one parent with its index maps;
  `Kustomizations` proves that this refines a specification on plain lists, and `MergedMeaning` says which
  files, images, generators and settings the result has; `PatchGroups` regroups JSON
  patches into files in any map order, and `PatchOrder` says when that order matters; `Paths` is Go's
  lexical path arithmetic, on which rewriting rests.
- **Ordering by kind**, **KfConfig state** (conditions, parameters, overlays, caches), **the KfDef
  loader**, **the upgrade merge**, **IAM policy algebra** and **image mirroring**. `LocalPaths` and `MirrorTree`
  state the results on caches and images in terms of path strings and of the directory tree.

Each imperative method is proved equal to a function on values, and lemmas say what that function means.
Where a natural claim is false of the code, there is a counterexample and, as far as possible, the exact
condition under which it holds (`...Iff`).

Where code and comments of the repository disagree, the model follows the code:

- pkg/utils/kindsorter.go:121 says that unknown kinds come last. They read rank 0 from the map, like the
  first kind, so they do not if they sort alphabetically before it (`KindOrder.AgreesIff`).
- pkg/kfapp/kustomize/kustomize.go:841-843 says that overlays with prefixes, suffixes, labels or
  annotations are an error. The code merges them (`Kustomizations.MergeRefinesScalars`).
- pkg/controller/kfdef/kfdef_controller.go:45 speaks of adding finalizers; the constant bounds the
  retries of removing one.
- `watchKubeflowResources` never returns an error, so the branch for its failure at lines 434-436 of
  the controller cannot be taken; one reply stands for both ways of failing to start the second controller.

## Model

| member | source | states |
|---|---|---|
| FinalizerRemoval.RemovalLosesNoUpdate | pkg/controller/kfdef/kfdef_controller.go:348-365 | Whatever others write and however stale the re-reads, the loop's whole effect on top of those writes is at most one write, the then stored object minus the KfDef finalizer; at most 1 + 10 Updates; no error only for an accepted Update |
| FinalizerRemoval.RemovedMeans | pkg/controller/kfdef/kfdef_controller.go:349-362 | Such a write takes exactly that finalizer away, keeps the other fields and all other objects, and the object is gone exactly if it was being deleted and nobody else holds it |
| FinalizerRemoval.RemovalSucceeds | pkg/controller/kfdef/kfdef_controller.go:348-365 | The removal succeeds for a live object if, as long as Updates are delivered and find it, some retry re-reads it freshly and nobody writes ahead of that retry's Update |
| FinalizerRemoval.QuietAttemptSucceeds | pkg/controller/kfdef/kfdef_controller.go:348-365 | The same from any attempt on, the first included |
| OperatorProcess.Operator.RemoveFinalizer | pkg/controller/kfdef/kfdef_controller.go:348-365 | The retry loop computes the specified outcome, number of Updates and API server |
| OperatorProcess.Operator.constructor | pkg/controller/kfdef/kfdef_controller.go:54-64 | A process starts with nothing registered, no second controller and a nil channel |
| OperatorProcess.Operator.Reconcile | pkg/controller/kfdef/kfdef_controller.go:281-457 | The imperative reconcile changes state, API server and trace exactly as the transition function says for some order of the registered keys |
| OperatorProcess.Operator.ReconcileDeleting | pkg/controller/kfdef/kfdef_controller.go:314-369 | Stops the second controller with the last registered KfDef, attempts the deletion, unregisters and removes the finalizer; panics on closing a channel that is not open |
| OperatorProcess.Operator.ReconcileLive | pkg/controller/kfdef/kfdef_controller.go:370-457 | Adds a missing finalizer, then either requests all deletions or applies, registers and starts the second controller |
| OperatorProcess.Operator.DeleteInstances | pkg/controller/kfdef/kfdef_controller.go:390-411 | The loop sends Deletes for the registered keys, each once in some map order, up to the first failure |
| OperatorProcess.Operator.OperatorUninstall | pkg/controller/kfdef/kfdef_controller.go:577-644 | Issues exactly the specified calls in order and gets to removing the operator only past every gate |
| OperatorProcess.Operator.WriteStatus | pkg/controller/kfdef/status.go:17-38 | Writes the status only if it differs from the one read, and reports what came of it |
| Outcomes.OutcomeMeans | pkg/controller/kfdef/kfdef_controller.go:281-457 | A reconcile panics exactly on closing a channel that is not open; it fails exactly if a call fails, or the KfDef is gone during an uninstall; it asks to come back exactly if a KfDef was handled without failure while the ConfigMap is there; otherwise it is done |
| Outcomes.AddingMeans | pkg/controller/kfdef/kfdef_controller.go:370-380 | Adding the finalizer fails exactly if the Update is not delivered or not current; an accepted one keeps all finalizers and fields of other clients, and nothing is written if the finalizer is there |
| Outcomes.StatusMeans | pkg/controller/kfdef/status.go:17-38 | The status is stored on top of the then stored object exactly if it differs from the one read and the Update gets through |
| Outcomes.DeletesStopAtFailure | pkg/controller/kfdef/kfdef_controller.go:391-411 | After the first Delete that fails no other one is sent |
| Outcomes.RequestStays | pkg/controller/kfdef/kfdef_controller.go:294-368 | While reconciles see the ConfigMap, no answer takes a waiting request out of the work queue |
| UninstallSafety.UninstallIsSafe | pkg/controller/kfdef/kfdef_controller.go:316-346 | In every run of a fresh operator, whenever it removes itself nothing is registered, every applied KfDef has a later deletion attempt, and each active generated namespace listed in that call was just sent a Delete |
| UninstallSafety.RemovesOperatorIff | pkg/controller/kfdef/kfdef_controller.go:577-644 | An uninstall call reaches the removal if and only if nothing is registered and all earlier calls succeeded |
| UninstallSafety.RemovesIff | pkg/controller/kfdef/kfdef_controller.go:287-302 | A step removes the operator if and only if it is a reconcile that finds its KfDef gone while the ConfigMap is there, and the uninstall call gets that far |
| UninstallSafety.UninstallCallMeans | pkg/controller/kfdef/kfdef_controller.go:577-644 | Every uninstall call begins with deleting the namespace of the request, and succeeds if and only if it reaches the removal and that works |
| UninstallSafety.ActiveDeletesCover | pkg/controller/kfdef/kfdef_controller.go:629-641 | The Deletes of such a call name exactly the active namespaces of the listing |
| UninstallSafety.DeleteActiveStops | pkg/controller/kfdef/kfdef_controller.go:629-641 | A call that fails there has sent the Deletes up to and with the first refused one |
| UninstallSafety.InvStep | pkg/controller/kfdef/kfdef_controller.go:281-457 | Every step keeps the invariant that applied KfDefs without a deletion attempt are registered |
| UninstallProgress.ConfigMapStopsGrowth | pkg/controller/kfdef/kfdef_controller.go:390-414 | A run in which every reconcile sees the deletion ConfigMap registers nothing, whatever fails |
| UninstallProgress.StepProgress | pkg/controller/kfdef/kfdef_controller.go:304-414 | Whatever reads and writes go stale or fail, no step that sees the ConfigMap enlarges the registered or the unmarked KfDefs as long as nobody else takes their finalizers away; a deletion that gets past its directory takes out its own KfDef and no other, and a reconcile whose Deletes get through leaves none unmarked |
| UninstallProgress.FreshRunKeepsAccount | pkg/controller/kfdef/kfdef_controller.go:304-425 | In a run of a fresh operator, with or without the ConfigMap, the registered keys are those of the KfDefs applied and not deleted since, and all of these exist and carry the finalizer, if nobody else takes it away and what is applied is dot-free and read freshly |
| UninstallProgress.StaleReadRegistersTheDead | pkg/controller/kfdef/kfdef_controller.go:281-425 | Applying what a stale read has found can register a KfDef that is gone |
| UninstallProgress.RegistrationsAreConserved | pkg/controller/kfdef/kfdef_controller.go:304-346 | Over such a run that sees the ConfigMap, the KfDefs left plus the reconciles that unregister one equal those registered at the start, so the waiting guard passes after exactly that many; without mishaps the process does not panic |
| UninstallProgress.UninstallCompletes | pkg/controller/kfdef/kfdef_controller.go:287-302 | Once such a run without mishaps has unregistered every KfDef, a reconcile that finds its KfDef gone and whose calls get through ends with the removal of the operator |
| UninstallProgress.UninstallFromStart | pkg/controller/kfdef/kfdef_controller.go:281-457 | The same from a fresh operator: setup run, uninstall run, removal of the operator |
| UninstallProgress.RemovalIsDelivered | pkg/controller/kfdef/kfdef_controller.go:287-368 | Served from a work queue that redelivers errors and requeues, such a run leaves the request for one of its KfDefs waiting, and delivering that with the KfDef gone ends with the removal of the operator |
| UninstallProgress.OnlyUninstallDeletes | pkg/controller/kfdef/kfdef_controller.go:304-457 | Without the ConfigMap no reconcile requests a deletion: a KfDef that nobody else touches and that is not being deleted stays so |
| UninstallProgress.DottedNamesBlockUninstall | pkg/controller/kfdef/kfdef_controller.go:391-411 | With all calls succeeding the deletion loop gets through if and only if all registered names and namespaces are free of dots |
| UninstallProgress.DeleteEachMarks | pkg/controller/kfdef/kfdef_controller.go:391-406 | Once the loop has passed a registered KfDef, that KfDef is being deleted and stays so |
| UninstallProgress.DeleteEachSparesOthers | pkg/controller/kfdef/kfdef_controller.go:391-406 | The loop touches no KfDef that is not registered |
| Lifecycle.SecondControllerSound | pkg/controller/kfdef/kfdef_controller.go:316-446 | In every run the second controller is on only while its channel is open and a KfDef is registered |
| Lifecycle.CrashesIff | pkg/controller/kfdef/kfdef_controller.go:316-320 | A run of a fresh operator panics if and only if some deletion meets a single registered KfDef while the second controller is off |
| Lifecycle.InStepIff | pkg/controller/kfdef/kfdef_controller.go:316-446 | A step keeps "controller on exactly while something is registered" if and only if it is none of three mishaps |
| Lifecycle.InStepRun | pkg/controller/kfdef/kfdef_controller.go:316-446 | Without mishaps that holds over whole runs, and the process never panics |
| Lifecycle.RegistrationIsNeeded | pkg/controller/kfdef/kfdef_controller.go:316-346 | A run without any failing call in which deleting an unregistered KfDef stops the controller for the others and the next deletion panics |
| OwnerKey.SplitOfKey | pkg/kfapp/kustomize/kustomize.go:1413-1414 | Splitting the joined key gives the pair back if and only if name and namespace are free of dots |
| OwnerKey.KeyHasTwoPartsIff | pkg/controller/kfdef/kfdef_controller.go:392-393 | The uninstall loop's check for two parts accepts exactly the keys of dot-free KfDefs |
| OwnerKey.KeyIsInjective | pkg/controller/kfdef/kfdef_controller.go:423-425 | With namespaces free of dots, as DNS labels are, the key is injective, whatever dots names contain |
| OwnerKey.KeyIdentifiesIff | pkg/controller/kfdef/kfdef_controller.go:147-148 | A key alone, as an annotation carries it, identifies its pair if and only if that is dot-free |
| OwnerKey.ParseOwnerIff | pkg/controller/kfdef/kfdef_controller.go:147-148 | Reading a key always gives some pair, and its own if and only if that is dot-free |
| OwnerKey.DottedNameMisdirects | pkg/controller/kfdef/kfdef_controller.go:147-165 | Events of the KfDef a.b in namespace ns enqueue the KfDef a in namespace b |
| OwnerKey.EventsReachTheirOwnerIff | pkg/controller/kfdef/kfdef_controller.go:145-173 | An event on a resource with a KfDef's key enqueues nothing if the owner read is gone or being deleted, else exactly one KfDef, the owner if and only if that is dot-free; likewise the deletion ConfigMap and a registered key |
| OwnerKey.OtherEventsEnqueueNothing | pkg/controller/kfdef/kfdef_controller.go:145-173 | Events on other resources enqueue nothing, but for the deletion ConfigMap while a KfDef is registered; an annotation or key without a dot is an index out of range |
| OwnerKey.WatchEnqueuesIff | pkg/controller/kfdef/kfdef_controller.go:97-121 | The primary watch enqueues a KfDef if and only if its event shows the finalizer, and then writes nothing |
| OwnerKey.AddingKeepsFinalizersIff | pkg/controller/kfdef/kfdef_controller.go:98-118 | The watch that adds the finalizer keeps all others if and only if the event had seen them, since it writes the event's list into a re-read object |
| OwnerKey.AddingCanLoseAFinalizer | pkg/controller/kfdef/kfdef_controller.go:98-118 | A concrete lost finalizer |
| OwnerAnnotation.AnnotateResources | pkg/kfapp/kustomize/kustomize.go:1394-1446 | Resources get the key up to the first withheld one; the flag is never set back |
| OwnerAnnotation.CarriesIff | pkg/kfapp/kustomize/kustomize.go:1416-1443 | A resource that is not withheld carries the key afterwards if and only if it did before or nothing ahead of it was withheld |
| OwnerAnnotation.AnnotatingKeepsTheRest | pkg/kfapp/kustomize/kustomize.go:1436-1443 | Annotating sets the owner key and changes no other annotation or field |
| OwnerAnnotation.WithheldIff | pkg/kfapp/kustomize/kustomize.go:1416-1434 | Withheld are existing namespaces without the key and the profiles resource definition |
| OwnerAnnotation.NamespaceCutsOffTheRest | pkg/kfapp/kustomize/kustomize.go:1416-1443 | A namespace of somebody else ahead of a deployment leaves the deployment without an owner |
| OwnerAnnotation.AnnotatedEventsReturnIff | pkg/controller/kfdef/kfdef_controller.go:145-165 | Round trip: events on an annotated resource come back to its KfDef if and only if that is dot-free |
| Merging.Merger.MergeKustomization | pkg/kfapp/kustomize/kustomize.go:844-1080 | Folding one file in place gives the specified parent, with every index map |
| Merging.Merger.MergeOverlays | pkg/kfapp/kustomize/kustomize.go:1084-1145 | Base then overlays are folded in order; a component without a base is taken as it is; the first overlay without a directory ends with an error; the last namespace parameter counts |
| Merging.Merger.MergeKustomizations | pkg/kfapp/kustomize/kustomize.go:1084-1196 | The whole merge: afterwards the JSON patches, and only they, are regrouped into files in some key order; no patch file is written when the merge fails |
| Merging.SourcesMean | pkg/kfapp/kustomize/kustomize.go:1084-1145 | The merged files are those of compDir/base and compDir/overlays/name, in order |
| Merging.FirstMissingMeans | pkg/kfapp/kustomize/kustomize.go:1109-1145 | The error names the first overlay without a directory |
| Merging.LastNamespaceMeans | pkg/kfapp/kustomize/kustomize.go:1084-1145 | The last parameter named namespace counts, and without one it is empty |
| Merging.UpdateGeneratorArgs | pkg/kfapp/kustomize/kustomize.go:897-924 | Generator sources are rewritten or copied; file sources are dropped and the last one becomes the env source |
| Merging.CopyEach | pkg/kfapp/kustomize/kustomize.go:972-981 | Copying labels in any map order is the right-biased map merge |
| FirstOccurrence.PutEach | pkg/kfapp/kustomize/kustomize.go:986-1078 | The indexed loop over a list gives the specified list and index |
| Kustomizations.MergeRefinesLists | pkg/kfapp/kustomize/kustomize.go:986-1078 | After any files each list of the parent is the first occurrences, by its key, of the files' rewritten lists one after the other |
| Kustomizations.IndexesAgree | pkg/kfapp/kustomize/kustomize.go:986-1078 | After every file each index map holds exactly the keys of its list, and no list but the generators' repeats a key |
| Kustomizations.MergeRefinesScalars | pkg/kfapp/kustomize/kustomize.go:966-985 | Labels and annotations are the right-biased merge of the files' maps; prefix, suffix and generator options are the first that any file sets |
| MergedMeaning.MergeCarriesPaths | pkg/kfapp/kustomize/kustomize.go:986-1078 | Resources, strategic merge patches and configurations: the merged file names from the component directory exactly the files inside it that the files named from theirs |
| MergedMeaning.MergeCarriesPatches | pkg/kfapp/kustomize/kustomize.go:1059-1069 | Every merged JSON patch is one of a file, with its target, naming the same patch file; with targets' names free of dashes none loses its file and target name |
| MergedMeaning.PatchKeyIsInjective | pkg/kfapp/kustomize/kustomize.go:1063-1069 | Patches are told apart by path and target name if the names have no dash |
| MergedMeaning.MergeCoversItems | pkg/kfapp/kustomize/kustomize.go:986-1078 | Merged images, variables and resource definitions come from the files, and none of theirs is missing by name |
| MergedMeaning.FirstImageWins | pkg/kfapp/kustomize/kustomize.go:997-1006 | Of images with one name the first file's first one is kept |
| MergedMeaning.EarlierListsStay | pkg/kfapp/kustomize/kustomize.go:986-1078 | Folding in more files only adds at the end of every list |
| MergedMeaning.GeneratorArgsMean | pkg/kfapp/kustomize/kustomize.go:897-924 | Env sources and the env source name the same files as before when inside the component directory, the last file source becomes the env source, literals stay in order |
| MergedMeaning.ConfigMapMeans | pkg/kfapp/kustomize/kustomize.go:927-943 | A config map generator keeps name, namespace and sources; merge and replace stay, create is left out |
| MergedMeaning.SecretMeans | pkg/kfapp/kustomize/kustomize.go:1020-1038 | A secret generator keeps name, namespace and sources, and create, merge and replace |
| MergedMeaning.MergeCarriesGenerators | pkg/kfapp/kustomize/kustomize.go:1016-1038 | Generators that do not create are all kept, and of those that do there is one of the name; there are no others |
| MergedMeaning.LabelsMean | pkg/kfapp/kustomize/kustomize.go:975-979 | The merged labels are those of the files with a bases list; the last file that has one decides its value |
| MergedMeaning.AnnotationsMean | pkg/kfapp/kustomize/kustomize.go:980-984 | The same for annotations |
| MergedMeaning.FirstSettingWins | pkg/kfapp/kustomize/kustomize.go:966-985 | Name prefix, name suffix and generator options are those of the first file that sets them |
| Kustomizations.BasesAreFirstsIff | pkg/kfapp/kustomize/kustomize.go:945-965 | The merged bases are the first occurrences of the wanted ones if and only if no path wanted for the first time is the own path of a file with a bases list that has by then asked for a path wanted before |
| Kustomizations.UnrepeatedIsClear | pkg/kfapp/kustomize/kustomize.go:955-965 | That holds if no file with a bases list repeats a base |
| Kustomizations.StackedOverlayIsLost | pkg/kfapp/kustomize/kustomize.go:945-965 | Folding a base without a list, an overlay x of it and an overlay of x loses x as a base |
| Kustomizations.BasesAreIndexed | pkg/kfapp/kustomize/kustomize.go:955-965 | No base is listed twice, and the index holds every path asked for and, besides the bases, only own paths of files with a bases list |
| MergedMeaning.WantedIff | pkg/kfapp/kustomize/kustomize.go:945-965 | A base is wanted exactly if it is the own path of a file without a bases list or a rewritten base of another file |
| MergedMeaning.BasesAreCarried | pkg/kfapp/kustomize/kustomize.go:945-965 | Every base inside the component directory is indexed under a path that names it, and listed unless a base was repeated |
| Kustomizations.NilBasesContributeNothing | pkg/kfapp/kustomize/kustomize.go:945-952 | A file without a bases list adds at most its own path and changes nothing else |
| FirstOccurrence.FirstsMeans | pkg/kfapp/kustomize/kustomize.go:986-993 | What is kept is exactly what occurs first under its key |
| FirstOccurrence.FirstsPrefix | pkg/kfapp/kustomize/kustomize.go:986-993 | More input only appends, so elements keep the order of their first occurrences |
| Paths.RewrittenMeansIff | pkg/kfapp/kustomize/kustomize.go:1370-1373 | For absolute directories, extractSuffix returns and its result names from the component directory the file that was meant, if and only if that file lies strictly below that directory |
| Paths.BelowMeans | pkg/kfapp/kustomize/kustomize.go:1370-1373 | Files strictly below keep their meaning for relative directories, too |
| Paths.ForeignIsMissed | pkg/kfapp/kustomize/kustomize.go:1370-1373 | A file elsewhere is taken for one below the component directory |
| Paths.OutsideIsRewrittenWrongly | pkg/kfapp/kustomize/kustomize.go:1370-1373 | The base ../../x of /a/kf/base is /a/x, but is rewritten to a/x |
| Paths.RelativeMayMeet | pkg/kfapp/kustomize/kustomize.go:1370-1373 | For relative directories a file elsewhere can be named correctly by accident |
| Paths.CleanKeepsSegments | pkg/kfapp/kustomize/kustomize.go:1370-1373 | Path cleaning, on which the rewriting rests, is idempotent and keeps what a path resolves to |
| PatchGroups.Group | pkg/kfapp/kustomize/kustomize.go:1147-1158 | The map holds for every name-kind key that occurs its patches in merge order |
| PatchGroups.Disk.Regroup | pkg/kfapp/kustomize/kustomize.go:1146-1194 | One aggregated patch per key in some map order, aimed at the first member's target, and the files written group by group in that order |
| PatchGroups.Disk.AppendPatches | pkg/kfapp/kustomize/kustomize.go:1173-1191 | A group's existing files are appended to its patch file, which is created if missing |
| PatchGroups.GroupsConserve | pkg/kfapp/kustomize/kustomize.go:1147-1158 | In any key order the groups together hold every patch exactly as often as it was merged |
| PatchGroups.MembersConcat | pkg/kfapp/kustomize/kustomize.go:1147-1158 | The patches of a group keep their merge order |
| PatchGroups.GroupFileMeans | pkg/kfapp/kustomize/kustomize.go:1173-1191 | If no patch file is read as a patch and groups have files of their own, each file ends up with its old content followed by its members' contents in merge order |
| PatchGroups.GroupTextConcat | pkg/kfapp/kustomize/kustomize.go:1173-1191 | The text of a group is its patches' files one after the other |
| PatchGroups.PatchFileMeans | pkg/kfapp/kustomize/kustomize.go:1175 | A group reads the patch file that the patch named in the file it was merged from |
| PatchGroups.AggregateNamesItsFile | pkg/kfapp/kustomize/kustomize.go:1163-1172 | The aggregated patch refers to the patch file of its group, and has a target of one of its patches |
| PatchGroups.OthersUnchanged | pkg/kfapp/kustomize/kustomize.go:1173-1191 | No other file changes |
| PatchOrder.OrderIsIrrelevantIff | pkg/kfapp/kustomize/kustomize.go:1161-1193 | With patch files apart, the files do not depend on the map order if and only if no group reads, from another group's patch file, text that group gives or an empty file it creates where only this makes the reader create its own |
| PatchOrder.FirstOrLast | pkg/kfapp/kustomize/kustomize.go:1161-1193 | Otherwise visiting the reading group first and visiting it last give different files |
| PatchOrder.OrderMatters | pkg/kfapp/kustomize/kustomize.go:1161-1193 | Two patches of which one is the patch file of the other one's group: the two map orders give different files |
| PatchOrder.IndependentIsAlone | pkg/kfapp/kustomize/kustomize.go:1173-1191 | For independent groups each file ends up as if its group had worked alone |
| PatchOrder.SeparateIsIndependent | pkg/kfapp/kustomize/kustomize.go:1161-1193 | Groups are independent if no patch file is read as a patch |
| PatchGroups.SingleSegmentsAreApart | pkg/kfapp/kustomize/kustomize.go:1162-1180 | In a clean directory, groups whose patch files have names of one segment never share a patch file |
| PatchGroups.RegroupIdempotentIff | pkg/kfapp/kustomize/kustomize.go:1180-1183 | Files are opened for append: generating again changes nothing if and only if no group has any content |
| PatchGroups.AgainDoublesText | pkg/kfapp/kustomize/kustomize.go:1173-1191 | A single patch with some text: generating twice writes the text twice |
| PatchGroups.SameGroupSameTarget | pkg/kfapp/kustomize/kustomize.go:1149-1150 | Without dashes in kinds a group is exactly one target name and kind |
| PatchGroups.DashesMixTargets | pkg/kfapp/kustomize/kustomize.go:1149-1172 | With dashes a group can mix targets |
| KindSorting.SortByKind | pkg/utils/kindsorter.go:81-102 | The slice ends up a permutation of itself, sorted if and only if the comparison is transitive on the kinds present |
| KindSorting.KindSorter.Sort | pkg/utils/kindsorter.go:81-90 | The same for a sort through Less and Swap only |
| KindSorting.KindSorter.Swap | pkg/utils/kindsorter.go:106 | Exchanges two elements and nothing else |
| KindSorting.SortingIsDetermined | pkg/utils/kindsorter.go:81-90 | Two sorted permutations list the same kinds in the same order, so the sorting algorithm does not matter |
| KindOrder.AgreesIff | pkg/utils/kindsorter.go:108-130 | The comparison is rank order with unknown kinds last, then name, if and only if unknown kinds present come after the first kind in the alphabet |
| KindOrder.TransitiveIff | pkg/utils/kindsorter.go:108-130 | It is transitive if and only if that holds or no other known kind is present |
| KindOrder.KindLessTrichotomy | pkg/utils/kindsorter.go:108-130 | Exactly one of less, equal, greater holds for any two kinds |
| KindOrder.CycleUnderInstallOrder | pkg/utils/kindsorter.go:108-130 | Application, Namespace and Secret form a cycle under the install order |
| KindOrder.CycleUnderUninstallOrder | pkg/utils/kindsorter.go:49-130 | Under the uninstall order every unknown kind that comes before APIService in the alphabet forms a cycle with APIService and Namespace |
| KindOrder.UninstallReversesInstall | pkg/utils/kindsorter.go:10-79 | Uninstalling goes in the reverse order of installing, but for custom resource definitions and services |
| KindOrder.SortedIsTransitive | pkg/utils/kindsorter.go:81-130 | Nothing can be sorted by the comparison unless it is transitive on the kinds present |
| KindOrder.SortedMeans | pkg/utils/kindsorter.go:81-130 | With unknown kinds after the first kind, sorted means known kinds by rank, then unknown ones by name |
| KindOrder.RankingIsLastPosition | pkg/utils/kindsorter.go:92-102 | The map knows exactly the listed kinds, each at its last position |
| KfConfigs.KfConfig.SetCondition | pkg/kfconfig/types.go:319-344 | The first condition of the type is replaced, keeping its transition time for an equal status, or one is appended |
| KfConfigs.KfConfig.GetCondition | pkg/kfconfig/types.go:347-357 | The first condition of the type |
| KfConfigs.KfConfig.SetPluginFinished | pkg/kfconfig/types.go:372-381 | Applies one finished call to the conditions |
| KfConfigs.KfConfig.SetPluginFailed | pkg/kfconfig/types.go:396-405 | Applies one failed call to the conditions |
| KfConfigs.KfConfig.IsPluginFinished | pkg/kfconfig/types.go:359-370 | Whether the first condition of the finished type is true |
| KfConfigs.KfConfig.IsPluginFailed | pkg/kfconfig/types.go:383-394 | Whether the first condition of the failed type is true |
| Conditions.ConditionsTellHistory | pkg/kfconfig/types.go:319-405 | Over every sequence of calls: types stay unique, a plugin is finished or failed exactly as its last call said, never both, and transition times are those of the first call of its current unbroken run |
| Conditions.OtherPluginsUnaffected | pkg/kfconfig/types.go:372-405 | A call leaves the conditions of every other plugin alone |
| Conditions.TypesAreInjective | pkg/kfconfig/types.go:212-217 | Condition types of different plugins, or of success and failure, never meet |
| KfConfigs.SetParameter | pkg/kfconfig/types.go:1041-1059 | Overwrites the last match or appends |
| KfConfigs.GetParameter | pkg/kfconfig/types.go:1031-1039 | Reads the first match |
| KfConfigs.KfConfig.LegacySetApplicationParameter | pkg/kfconfig/types.go:799-824 | Sets the parameter in the last application of the name; an error for one without config, nothing for a missing one |
| KfConfigs.KfConfig.GetApplicationParameter | pkg/kfconfig/types.go:675-686 | Reads from the first application of the name |
| KfConfigs.KfConfig.DeleteApplication | pkg/kfconfig/types.go:881-899 | Takes out the last application of the name |
| KfConfigs.KfConfig.AddApplicationOverlay | pkg/kfconfig/types.go:901-930 | Adds an overlay that is not there yet |
| KfConfigs.KfConfig.RemoveApplicationOverlay | pkg/kfconfig/types.go:932-962 | Removes the last occurrence of an overlay |
| Applications.GetAfterSet | pkg/kfconfig/types.go:675-824 | The value set is the value read if and only if names are unambiguous or it was read before; every other (application, parameter) pair reads as before |
| Applications.GetAfterSetParam | pkg/kfconfig/types.go:1031-1059 | The same for a parameter list, for every list, and unique names stay unique |
| Applications.SetTouchesOneApp | pkg/kfconfig/types.go:799-824 | Setting is refused exactly if the last application of the name has no config; else only that application's parameters change, and the new pair is among them |
| Applications.UniqueNamesAddressable | pkg/kfconfig/types.go:675-824 | Unique application and parameter names make every pair unambiguous |
| Applications.RepeatedNameHidesValue | pkg/kfconfig/types.go:1031-1059 | With a repeated name the value set is not the value read |
| Applications.RemoveUndoesAddIff | pkg/kfconfig/types.go:901-962 | Removing an overlay after adding it restores the list if and only if it was new or there is no such application |
| Applications.AddOverlayMeans | pkg/kfconfig/types.go:901-930 | After adding, the last application of the name has the overlay, where it was or else at the end, and nothing else changes |
| Applications.RemoveOverlayMeans | pkg/kfconfig/types.go:932-962 | After removing, exactly the last occurrence of the overlay is gone, and nothing else changes |
| Applications.OverlaysLeaveParameters | pkg/kfconfig/types.go:901-962 | Editing overlays changes no parameter |
| Applications.DeleteNames | pkg/kfconfig/types.go:881-899 | The application is gone if and only if its name was not repeated; uniqueness is kept |
| Applications.DeleteKeepsOthers | pkg/kfconfig/types.go:881-899 | Exactly the last application of the name goes, the others stay in order |
| KfConfigs.KfConfig.SyncCache | pkg/kfconfig/types.go:438-593 | Directories, entries, downloads and result are those of the specification, for every way a download can go: failures, which may leave part of a tree, the panic on an archive without entries, and any unpacked tree |
| KfConfigs.KfConfig.GetRepoCache | pkg/kfconfig/types.go:221-228 | The first entry of the name |
| CacheSync.SyncTwice | pkg/kfconfig/types.go:438-593 | For names of one segment a successful call is complete, and a second one succeeds, fetches nothing and changes nothing |
| CacheSync.SyncFetchesUncached | pkg/kfconfig/types.go:458-591 | For names of one segment a successful call downloads exactly what was not cached when it began, each name once and in order |
| CacheSync.SyncKeepsIff | pkg/kfconfig/types.go:438-593 | After success every repository has an entry with a local path, and its cache, with all that is in it, is as its own turn left it if and only if every later repository whose directory covers that cache or lies in it had such an entry at the start or was named by then, and its directory was there after that turn |
| CacheSync.KeptFromEmptyIff | pkg/kfconfig/types.go:438-593 | Without entries at the start only being named by then counts; for different names the cache is kept if and only if no later repository's directory covers it or lies in it |
| CacheSync.SyncKeepsAll | pkg/kfconfig/types.go:438-593 | For names of one segment every cache is kept whole |
| CacheSync.SingleSegmentsAreDisjoint | pkg/kfconfig/types.go:459 | With names of one segment no cache directory lies below another |
| CacheSync.LookupAfterSyncIff | pkg/kfconfig/types.go:221-228 | The lookup after success finds a local path if and only if the first entry of the name was absent before or had one |
| LocalPaths.LocalPathAfterSync | pkg/kfconfig/types.go:560-588 | For a name of one segment without an entry, the lookup after success gives appDir/.cache/name or, if the download asks for an entry, that entry in it |
| LocalPaths.LocalPathExists | pkg/kfconfig/types.go:560-588 | That path exists: the cache directory always, the entry if the tree has it |
| LocalPaths.CallSucceedsIff | pkg/kfconfig/types.go:438-593 | For names of one segment a call succeeds exactly if there is a directory to work in and every repository is cached, named earlier, too, or its download is unpacked |
| LocalPaths.FailedTurnMeans | pkg/kfconfig/types.go:463-588 | A failing turn changes no entry, and leaves of the old directory everything or nothing |
| LocalPaths.SyncKeepsEntries | pkg/kfconfig/types.go:584-587 | Whatever happens, no entry is lost or changed |
| CacheSync.EmptyEntryHidesPath | pkg/kfconfig/types.go:221-228 | A repository whose entry has no local path is downloaded, even if its directory is there, and gets one, but the lookup finds the old entry |
| CacheSync.NestedNamesLoseCache | pkg/kfconfig/types.go:463-490 | From an empty cache, the repositories x/y and x: the call succeeds, and of the cache of x/y nothing is left; what is at its place or below comes from the download of x, and there is a directory only if the archive of x has one |
| CacheSync.InnerRepositoryCutsCache | pkg/kfconfig/types.go:463-490 | The repositories x and x/y, where the archive of x has a directory y: of that directory only paths that the archive of x/y has, too, are left |
| Loader.LoadKfConfig | pkg/kfconfig/loaders/v1.go:17-160 | The loops build the specified config, with inferred platform, basic authentication and GCP fields, or fail if the GCP spec cannot be read |
| Loader.LoadKfDef | pkg/kfconfig/loaders/v1.go:162-251 | The loops build the specified KfDef |
| Loader.LoadOne | pkg/kfconfig/loaders/v1.go:79-109 | One plugin: platforms come from the last plugin that has one, GCP fields from the first GCP plugin |
| Loader.LoadedMeans | pkg/kfconfig/loaders/v1.go:17-160 | Basic authentication exactly if an application comes from common/basic-auth; every plugin gets the namespace of the KfDef; literal secrets are kept |
| Loader.PlatformMeans | pkg/kfconfig/loaders/utils.go:8-21 | The platform is aws, gcp or existing_arrikto after the last plugin of such a kind, or empty |
| Loader.GcpFieldsMean | pkg/kfconfig/loaders/v1.go:79-109 | GCP fields are those of the first GCP plugin, and loading fails exactly if they cannot be read |
| Loader.LoadThenSaveProjects | pkg/kfconfig/loaders/v1.go:17-251 | Loading then saving drops literal secrets, plugin API versions and unlisted metadata, and keeps everything else in order |
| Loader.ProjectedIsIdempotent | pkg/kfconfig/loaders/v1.go:162-251 | That projection is idempotent |
| Loader.LoadedIsFixedIff | pkg/kfconfig/loaders/v1.go:17-251 | A loaded config survives saving and loading, inferences included, if and only if there was no literal secret; saving again gives the same KfDef |
| KfConfigs.MergeKfCfg | pkg/kfupgrade/kfupgrade.go:218-257 | Name, plugin specs and parameter values are carried over as specified |
| KfConfigs.MergePlugins | pkg/kfupgrade/kfupgrade.go:221-238 | The loop over the four kinds carries over each spec that the old config has and that passes through the GCP plugin type |
| KfConfigs.KfConfig.GetPluginSpec | pkg/kfconfig/types.go:230-262 | The spec of the first plugin of the kind |
| KfConfigs.KfConfig.SetPluginSpec | pkg/kfconfig/types.go:265-316 | The first plugin of the kind gets the spec, or a new one is appended |
| Upgrade.MergeKindsMeans | pkg/kfupgrade/kfupgrade.go:221-238 | Every merged kind ends up with the carried spec if there is one, every other kind with its own |
| Upgrade.CarriedKinds | pkg/kfupgrade/kfupgrade.go:221-238 | Carried over are exactly the readable specs of the AWS, GCP, Minikube and existing Arrikto kinds |
| Upgrade.FirstSpecMeans | pkg/kfconfig/types.go:230-262 | The spec found is that of the first plugin of the kind |
| Upgrade.MergeKindsIdempotent | pkg/kfupgrade/kfupgrade.go:221-238 | Merging plugins again changes nothing |
| Upgrade.MergeKindsKeepsPlaces | pkg/kfupgrade/kfupgrade.go:221-238 | Plugins of the new config keep places, names, namespaces and kinds |
| Upgrade.MergeTakesOldValue | pkg/kfupgrade/kfupgrade.go:243-250 | A parameter takes the value of the old application if that gives its name a single value, and keeps its own if it has none |
| Upgrade.MergedAppMeans | pkg/kfupgrade/kfupgrade.go:240-256 | An application takes its values from the first old one of its name, parameter by parameter |
| Upgrade.FirstDifferentValue | pkg/kfupgrade/kfupgrade.go:243-250 | Of several old values the first that differs from the new one is taken |
| Upgrade.MergeIdempotentIff | pkg/kfupgrade/kfupgrade.go:240-256 | Merging again changes nothing, whatever the new values, if and only if every parameter meets a single old value |
| Upgrade.UniqueOldNamesSuffice | pkg/kfupgrade/kfupgrade.go:240-256 | Unique parameter names in each old application are enough for that |
| Upgrade.RepeatedNameAlternates | pkg/kfupgrade/kfupgrade.go:240-256 | An old application that repeats a name makes a second merge change the value back |
| Upgrade.MergeKeepsTheRest | pkg/kfupgrade/kfupgrade.go:240-256 | Order, names, overlays, repository references and parameter names are unchanged |
| IamPolicy.ClearIamPolicy | pkg/utils/iamutils.go:70-91 | Bindings end up without the three accounts of the deployment |
| IamPolicy.RewriteIamPolicy | pkg/utils/iamutils.go:148-177 | Bindings end up listing each role once with its members, each once, in some order |
| IamPolicy.ClearedMeans | pkg/utils/iamutils.go:70-91 | The (role, member) relation loses exactly those accounts, and no role |
| IamPolicy.WithoutConcat | pkg/utils/iamutils.go:76-88 | The members that stay keep their order |
| IamPolicy.ClearedAccounts | pkg/utils/iamutils.go:70-91 | What goes is exactly the admin, user and vm account of the deployment |
| IamPolicy.DeploymentsAreApart | pkg/utils/iamutils.go:70-91 | Two deployments in a project have no account in common |
| IamPolicy.RewriteAddsIff | pkg/utils/iamutils.go:148-177 | The relation becomes old plus added if and only if no member is lost with an earlier binding of a repeated role |
| IamPolicy.RewriteRoles | pkg/utils/iamutils.go:148-177 | Every role is kept, and those of added bindings with members come on top |
| IamPolicy.CycleMeans | pkg/utils/iamutils.go:70-177 | For one binding per role, clear and rewrite is exactly old minus accounts plus added; roles and members are unique afterwards |
| IamPolicy.CycleIsIdempotent | pkg/utils/iamutils.go:70-177 | Repeating the cycle changes nothing, whatever the first policy was |
| IamPolicy.RepeatedRoleLosesMembers | pkg/utils/iamutils.go:150-155 | A repeated role loses the members of its earlier binding |
| Mirror.ReplicateTasks.ProcessKustomizeDir | pkg/mirror/mirror_image.go:158-244 | The recursion collects the tasks of exactly the images reached, in order |
| Mirror.ReplicateTasks.FillTasks | pkg/mirror/mirror_image.go:246-259 | The same for every directory of the walk |
| Mirror.ReplicateTasks.OrderedKeys | pkg/mirror/mirror_image.go:148-155 | All keys in ascending order |
| Mirror.UpdateImages | pkg/mirror/mirror_image.go:307-335 | Every image is updated as specified, and the file is written again if and only if one is in the mapping |
| Mirror.BuildMapping | pkg/mirror/mirror_image.go:291-305 | The mapping is the inverse of the tasks, later ones winning |
| Mirror.TasksMean | pkg/mirror/mirror_image.go:166-205 | Every task stands for a selected image with that old and new image, and every selected image has one |
| MirrorTree.ReachedIff | pkg/mirror/mirror_image.go:158-244 | An image is reached from a directory if and only if a chain of package references leads to a directory that lists it |
| MirrorTree.AllReachedIff | pkg/mirror/mirror_image.go:246-259 | And by a walk if and only if one of its directories leads to it |
| MirrorTree.LaterPackageWins | pkg/mirror/mirror_image.go:166-242 | Where images compete for one new name, packages win over the directory's own images, and later packages over earlier ones |
| MirrorTree.TreeTasksMean | pkg/mirror/mirror_image.go:158-259 | Every task is for an image of the tree that the pattern selects, from its effective name to registry/name with the same tag or digest, and every such image has one |
| Mirror.LaterKeyWins | pkg/mirror/mirror_image.go:291-305 | Of several tasks for one old image the one with the last key decides |
| Mirror.MirrorThenUpdate | pkg/mirror/mirror_image.go:158-343 | On well-named images whose old and new images determine each other, every selected image ends up at registry/name with its tag and every other one is untouched |
| Mirror.MirrorThenUpdateIff | pkg/mirror/mirror_image.go:158-343 | For images that do not point at the mirror yet, that succeeds for all of them if and only if old and new images determine each other |
| MirrorTree.TreeIsMirrored | pkg/mirror/mirror_image.go:158-343 | The same for the images of the tree: those that references lead to and the pattern selects end up at registry/name, all others are untouched |
| Mirror.SharedImageIsMisdirected | pkg/mirror/mirror_image.go:158-343 | Two images named a and b with the same new name and tag: not both end up at their mirror |
| Mirror.MutualByNamesAndTags | pkg/mirror/mirror_image.go:187-199 | That condition can be read off names, effective names and tags |
| Mirror.CutRestoresIff | pkg/mirror/mirror_image.go:326-331 | Cutting the version off gives the name back if and only if the name has no colon and, for a digest, the digest has none either and the name no at-sign |

## Left out

- kfApply and kfDelete: opaque calls that may fail, recorded as trace events; their results only steer the reconciler.
- The data race between the two controllers on the unguarded globals, and process restarts: reconciles are serialised within one process lifetime, while API calls stay interleaved with other clients.
- Kubernetes, GCP, AWS and OLM clients, HTTP, tar, YAML and JSON: replies come from scripts, file contents from small maps, and encoding followed by decoding is taken as the identity on the structures.
- Merging.Merger.MergeKustomizations: updateParamFiles (pkg/kfapp/kustomize/kustomize.go:851-895) is not modelled; it fills in params.env with every file that is merged, also where a later overlay is missing, and touches nothing of the parent.
- Merging.Merger.MergeKustomization: paths for which extractSuffix would slice beyond the string are excluded, as the code panics there; the parent and its index maps are one value, replaced as a whole.
- PatchGroups.Disk.Regroup: failing reads and writes, which abort the generation, are not modelled.
- PatchGroups.Disk.AppendPatches: nor are they here.
- KindSorting.KindSorter.Sort: stands for Go's sort.Sort by its insertion sort; the other algorithms of that package are covered only through KindSorting.SortingIsDetermined.
- KfConfigs.MergeKfCfg: old and new config are different objects; reading a spec into the GCP plugin type and writing it again is one step that may fail.
- KfConfigs.KfConfig.LegacySetApplicationParameter: the path through kustomize stacks, which edits files, is not modelled.
- KfConfigs.KfConfig.SyncCache: a download is one step with a scripted result, and a MkdirAll that fails is taken to have made nothing; files have no contents, and directories are compared by their clean paths.
- Mirror.MirrorThenUpdate: a single pattern; the pipeline and Cloud Build files are not modelled beyond the order of their tasks, and directories form a finite tree, while the code would follow a cycle forever.
- Strings are sequences of characters; Go compares bytes, which orders valid UTF-8 the same way.
- `ReadIamBindingsYAML`, image names parsed by regular expression, the loaders of other KfDef versions, generated code and the command line.
