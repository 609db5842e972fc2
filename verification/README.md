# Mylife Home, verified

A Dafny model of the parts of Mylife Home, a home-automation system, whose correctness rests on an
invariant rather than on one function: the studio's normalised stores, its stream protocols and
replicas, the timer language, and the typed propagation of signals between components. Files that
change state in the source are classes or methods with loops; pure code is functions. Events that
come from outside (timers, sockets, other processes) are separate steps in any order.

| files | what they model |
|---|---|
| `Strings`, `Options`, `ReducerTools` | strings, sorted id arrays and tables |
| `DesignerIds` | row ids of the core designer and the way back |
| `CoreStore`, `StoreSteps`, `StoreUpdates`, `StoreDefinitions`, `StoreWrites`, `ProjectUpdates`, `CoreDesigner` | the core designer's tables and hand-kept indexes |
| `TemplateGraph`, `Templates`, `DefinitionProperties`, `Nesting` | template containment, usable templates, export resolution |
| `Debounce`, `ConfigureCalls` | the keyed debouncer and the project calls it merges |
| `MpdClient` | the MPD client against an idle-capable server |
| `RegistryConnector` | UI sessions that follow the registry |
| `TimerLanguage`, `SmartTimer` | timer programs, their executor and the binary smart timer |
| `OnlineHistory` | the history window with back-links |
| `Types`, `Codecs`, `Plugins`, `TypeTexts` | the type language, wire codecs, plugin metadata, and what a type's text tells |
| `Registry`, `Components`, `Bindings` | the component registry, local and remote components, bindings |
| `OnlineTables`, `OnlineReplica`, `OnlineView`, `OnlineEvents` | the online components view as a replica of the registry |
| `UniqueId` | the unique-id search |

`CoreStore.Exact` is the invariant of the core designer: every table is sorted and duplicate-free, view
lists equal the view's rows, usage lists equal the components of a definition, binding indexes equal the
bindings that end there with no empty list, and no instance is without plugin. The indexes are a function
of the content (`CoreStore.ContentDeterminesRows`), so the meaning of an update is stated on the content
alone and each method says both what the content becomes and exactly when the indexes stay exact.

Properties that do not hold on every input are stated as an equivalence with the condition under which they
do, next to an input that breaks them: `ReducerTools.ArrayRemoveExactly`, `DesignerIds.EmptyTabIsNotChecked`,
`ConfigureCalls.KeysCollide` with `ConfigureCalls.ColonsCollide`, `Debounce.OvertookIffReordered` with
`Debounce.OvertakingRun`, `TypeTexts.TextIsUnique` and `TypeTexts.TextTellsValues` with `Types.CommasCollide` and
`Codecs.CommasAcceptMore`, `Components.RemoteForward` with `Components.RemoteValueRefused`, `Registry.KeysCollide` and
`Registry.AddRefused` with `Registry.DifferentPluginsCollide`, `TimerLanguage.DelayAccepts` with
`TimerLanguage.HexIsAccepted`, and the "if and only if" clauses of the core designer's updates.

`dafny verify dfyconfig.toml` checks the whole project.

## Model

| member | source | states |
|---|---|---|
| `DesignerIds.ExtractInvertsCompose` | packages/mylife-home-studio/public/app/store/core-designer/epics.ts:251-270 | For colon-free tab and template ids, taking a composed id apart gives back tab, template and the rest, whatever colons the rest holds |
| `DesignerIds.ComposeInvertsExtract` | packages/mylife-home-studio/public/app/store/core-designer/epics.ts:263-270 | Every id that can be taken apart is the composition of its parts, and the first two have no colon |
| `DesignerIds.ComposedIdsDistinct` | packages/mylife-home-studio/public/app/store/core-designer/reducer.ts:387-389 | Ids composed in different tabs, in different views or from different local ids never collide |
| `DesignerIds.ExtractIdsListWithTemplate` | packages/mylife-home-studio/public/app/store/core-designer/epics.ts:291-312 | The list form answers exactly when every id can be taken apart and no id after the first non-empty tab leaves its tab or view; then it gives the local ids in order with that tab and view |
| `DesignerIds.CompatibleMeansOneView` | packages/mylife-home-studio/public/app/store/core-designer/epics.ts:291-312 | With non-empty tab ids, the list form succeeds if and only if all ids share one tab and one view |
| `DesignerIds.EmptyTabIsNotChecked` | packages/mylife-home-studio/public/app/store/core-designer/epics.ts:299-303 | An id with an empty tab is not compared: a list over two views is accepted after it |
| `DesignerIds.OwnersOfComposed` | packages/mylife-home-studio/public/app/store/core-designer/reducer.ts:387-389 | The tab and the view a row belongs to can be read back from its id |
| `ReducerTools.SortedUnique` | packages/mylife-home-studio/public/app/store/common/reducer-tools.ts:64-70 | A sorted arrangement of the same ids is unique, so any sorting algorithm gives the arrays of the model |
| `Strings.BelowMeans` | packages/mylife-home-studio/public/app/store/common/reducer-tools.ts:64-70 | The sort order: a proper prefix first, else the first character that differs decides |
| `ReducerTools.ArrayAddLists` | packages/mylife-home-studio/public/app/store/common/reducer-tools.ts:64-70 | Adding a new id to a sorted, duplicate-free array of a set gives that of the larger set |
| `ReducerTools.ArraySetLists` | packages/mylife-home-studio/public/app/store/common/reducer-tools.ts:78-82 | Setting an id keeps the array exact, whether the id was there or not |
| `ReducerTools.ArrayRemoveExactly` | packages/mylife-home-studio/public/app/store/common/reducer-tools.ts:72-76 | Removing takes out the id and nothing else if and only if the id is there or nothing is; an absent id costs the array its last, unrelated element |
| `ReducerTools.AddTwice` | packages/mylife-home-studio/public/app/store/common/reducer-tools.ts:64-70 | Adding an id that is already there lists it twice, so the array is exact for no set |
| `ReducerTools.RemoveListsLess` | packages/mylife-home-studio/public/app/store/common/reducer-tools.ts:72-76 | Removing an id that is there turns the exact array of a set into that of the set without the id |
| `ReducerTools.ListsUnique` | packages/mylife-home-studio/public/app/store/common/reducer-tools.ts:64-82 | Two exact arrays of the same ids are the same array |
| `ReducerTools.Table.Set` | packages/mylife-home-studio/public/app/store/common/reducer-tools.ts:24-32 | Adds or overwrites one row; rows and sorted id list stay in step |
| `ReducerTools.Table.Add` | packages/mylife-home-studio/public/app/store/common/reducer-tools.ts:34-42 | Adds a row unless one has its id; rows and id list stay in step |
| `ReducerTools.Table.Remove` | packages/mylife-home-studio/public/app/store/common/reducer-tools.ts:44-51 | Removes one row, or nothing; rows and id list stay in step |
| `ReducerTools.Table.RemoveAll` | packages/mylife-home-studio/public/app/store/common/reducer-tools.ts:53-57 | Removes exactly the rows named |
| `CoreStore.ContentDeterminesRows` | packages/mylife-home-studio/public/app/store/core-designer/reducer.ts:205-306 | The indexes carry no information: two exact stores with the same content are equal |
| `CoreStore.SameBindingsSameIndex` | packages/mylife-home-studio/public/app/store/core-designer/reducer.ts:387-417 | Two exact stores with the same bindings have the same binding index for a component, whatever its configuration |
| `CoreStore.ScopedConfigIsLocal` | packages/mylife-home-studio/public/app/store/core-designer/reducer.ts:263-268 | Every configuration export of a template points into that template |
| `CoreStore.ScopedMembersAreLocal` | packages/mylife-home-studio/public/app/store/core-designer/reducer.ts:270-275 | Every member export of a template points into that template |
| `CoreStore.ScopedConfigMeans` | packages/mylife-home-studio/public/app/store/core-designer/reducer.ts:263-268 | A name is exported if and only if an entry has it; it then stands for the configuration item of the last such entry, on the component whose id is taken apart into this tab, this template and the local id of the entry |
| `CoreStore.ScopedMemberMeans` | packages/mylife-home-studio/public/app/store/core-designer/reducer.ts:270-275 | The same for member exports |
| `ProjectUpdates.ApplyMeans` | packages/mylife-home-studio/public/app/store/core-designer/reducer.ts:158-488 | Each update changes exactly the row that stands for the local ids it names, to exactly what it says, read back by taking row ids apart; every other row is as it was; the view shown leaves a cleared template and stays otherwise |
| `StoreUpdates.SetComponentExact` | packages/mylife-home-studio/public/app/store/core-designer/reducer.ts:387-417 | Setting a component keeps every index exact if and only if it is new or keeps its definition |
| `StoreUpdates.ClearComponentExact` | packages/mylife-home-studio/public/app/store/core-designer/reducer.ts:419-430 | Clearing a component keeps every index exact if and only if no binding ends at it |
| `StoreUpdates.RenameComponentExact` | packages/mylife-home-studio/public/app/store/core-designer/reducer.ts:432-452 | Renaming a component keeps every index exact if and only if the id stays, or the new id is free and no binding ends at the component |
| `StoreUpdates.SetBindingExact` | packages/mylife-home-studio/public/app/store/core-designer/reducer.ts:454-470 | Setting a binding keeps every index exact if and only if it joins two members, and is new or keeps its ends |
| `StoreUpdates.ClearBindingExact` | packages/mylife-home-studio/public/app/store/core-designer/reducer.ts:472-483 | Clearing a binding always keeps every index exact, with no empty list left |
| `StoreDefinitions.AddTemplateExact` | packages/mylife-home-studio/public/app/store/core-designer/reducer.ts:235-253 | A new template starts with exact, empty lists and is listed by its tab |
| `StoreDefinitions.SetExportsExact` | packages/mylife-home-studio/public/app/store/core-designer/reducer.ts:255-276 | New exports disturb no index |
| `StoreDefinitions.ClearTemplateExact` | packages/mylife-home-studio/public/app/store/core-designer/reducer.ts:280-306 | Clearing a template keeps every index exact if and only if no component outside it uses it |
| `StoreDefinitions.SetPluginExact` | packages/mylife-home-studio/public/app/store/core-designer/reducer.ts:490-524 | Setting a plugin keeps every index exact if and only if it is new or stays on its instance |
| `StoreDefinitions.ClearPluginExact` | packages/mylife-home-studio/public/app/store/core-designer/reducer.ts:212-233 | Clearing an unused plugin keeps every index exact, and an instance goes with its last plugin |
| `StoreDefinitions.NewTabExact` | packages/mylife-home-studio/public/app/store/core-designer/reducer.ts:17-39 | A new tab keeps every index exact |
| `CoreDesigner.Store.Register` | packages/mylife-home-studio/public/app/store/core-designer/reducer.ts:526-541 | The users of the definition gain exactly the component, listed once and in order, and nothing else changes |
| `CoreDesigner.Store.Unregister` | packages/mylife-home-studio/public/app/store/core-designer/reducer.ts:543-558 | Only called for a listed component: the users of its definition lose exactly it, in order, and nothing else changes |
| `CoreDesigner.Store.AddBinding` | packages/mylife-home-studio/public/app/store/core-designer/reducer.ts:560-567 | The index of the component gains exactly the binding at that member, listed once and in order |
| `CoreDesigner.Store.RemoveBinding` | packages/mylife-home-studio/public/app/store/core-designer/reducer.ts:569-575 | Only called for an indexed binding: the index loses exactly it at that member, and an emptied list is dropped |
| `CoreDesigner.Store.SetComponent` | packages/mylife-home-studio/public/app/store/core-designer/reducer.ts:387-417 | The content and the row gain exactly this component; the store is exact afterwards if and only if the component is new or keeps its definition; re-sent with its definition, its binding index is what it was |
| `CoreDesigner.Store.ClearComponent` | packages/mylife-home-studio/public/app/store/core-designer/reducer.ts:419-430 | The content loses exactly this component; exact afterwards if and only if no binding ended at it |
| `CoreDesigner.Store.RenameComponent` | packages/mylife-home-studio/public/app/store/core-designer/reducer.ts:432-452 | The content moves the component to its new id, over whatever was there; exact afterwards if and only if the id stays, or was free and no binding ended at the component |
| `CoreDesigner.Store.SetBinding` | packages/mylife-home-studio/public/app/store/core-designer/reducer.ts:454-470 | The content gains exactly this binding; exact afterwards if and only if it joins two members, and is new or keeps its ends |
| `CoreDesigner.Store.ClearBinding` | packages/mylife-home-studio/public/app/store/core-designer/reducer.ts:472-483 | The content loses exactly this binding and the store stays exact |
| `CoreDesigner.Store.SetTemplate` | packages/mylife-home-studio/public/app/store/core-designer/reducer.ts:235-278 | The content gets the template with exactly these exports, each name standing for what its last entry says, and the store stays exact |
| `CoreDesigner.Store.ClearTemplate` | packages/mylife-home-studio/public/app/store/core-designer/reducer.ts:280-306 | The content loses the template with its components and bindings and nothing else, and the tab leaves its view if it showed it; exact afterwards if and only if no component outside used it |
| `CoreDesigner.Store.SetPlugin` | packages/mylife-home-studio/public/app/store/core-designer/reducer.ts:490-524 | The content and the row gain exactly this plugin, and its instance lists it; exact afterwards if and only if it is new or stays on its instance |
| `CoreDesigner.Store.ClearPlugin` | packages/mylife-home-studio/public/app/store/core-designer/reducer.ts:212-233 | Refused exactly while a component uses the plugin, and then nothing changes; otherwise the content loses exactly the plugin |
| `CoreDesigner.Store.NewTab` | packages/mylife-home-studio/public/app/store/core-designer/reducer.ts:17-39 | Opening a tab adds an empty project; a tab that is open keeps its project |
| `CoreDesigner.Store.ApplyProjectUpdate` | packages/mylife-home-studio/public/app/store/core-designer/reducer.ts:158-488 | Every update a consistent server sends keeps all indexes exact and does to the content exactly what it means to a reader of local ids |
| `CoreDesigner.Store.UpdateProject` | packages/mylife-home-studio/public/app/store/core-designer/reducer.ts:86-91 | Every run of such updates, over any number of tabs, keeps all indexes exact and does what each update means, one after the other; every array removal on the way requires its id to be present |
| `CoreDesigner.ScopedExports` | packages/mylife-home-studio/public/app/store/core-designer/reducer.ts:255-275 | The export loops give each name what its last entry says, with the local component id as a row id of the template's view |
| `TemplateGraph.AddEdgeAcyclic` | packages/mylife-home-studio/public/app/store/core-designer/selectors.ts:524-532 | Adding one containment to an acyclic graph keeps it acyclic if and only if the contained template does not reach the container |
| `TemplateGraph.DescendantsShrink` | packages/mylife-home-studio/public/app/store/core-designer/selectors.ts:396-424 | In an acyclic graph a contained template has strictly fewer descendants: the measure of the resolving recursions |
| `Templates.FillTemplateUsage` | packages/mylife-home-studio/public/app/store/core-designer/selectors.ts:534-549 | Ends on every graph, cyclic or not, and adds exactly the templates that contain the given one at any depth |
| `Templates.GetUsableTemplates` | packages/mylife-home-studio/public/app/store/core-designer/selectors.ts:524-532 | Returns, in order, exactly the tab's templates that do not contain the active one at any depth; all of them in the main view |
| `Templates.UsableIffAcyclic` | packages/mylife-home-studio/public/app/store/core-designer/selectors.ts:524-532 | Instantiating a template of the tab in the active view keeps containment acyclic if and only if it is one of those returned: both speak of the same predicate |
| `Templates.MainViewIsSafe` | packages/mylife-home-studio/public/app/store/core-designer/selectors.ts:524-532 | Instantiating any template in the main view keeps containment acyclic |
| `Templates.ResolvesAlongChain` | packages/mylife-home-studio/public/app/store/core-designer/selectors.ts:411-424 | Resolving a member export finds a member, finds none or crashes if and only if a chain of exports leads through the templates to a plugin that has it, to one that lacks it, or to something that does not exist |
| `Templates.ConfigResolvesAlongChain` | packages/mylife-home-studio/public/app/store/core-designer/selectors.ts:396-409 | The same for configuration exports |
| `Templates.CompleteMembersResolve` | packages/mylife-home-studio/public/app/store/core-designer/selectors.ts:411-424 | When every export names something its component offers, every member export resolves |
| `Templates.CompleteConfigsResolve` | packages/mylife-home-studio/public/app/store/core-designer/selectors.ts:396-409 | When every export names something its component offers, every configuration export resolves |
| `DefinitionProperties.GetComponentDefinitionProperties` | packages/mylife-home-studio/public/app/store/core-designer/selectors.ts:340-394 | Yields the properties of a definition exactly when all its exports resolve: the resolved members and items, and the names of exactly the states, the actions and the items, each list sorted |
| `DefinitionProperties.ExportIsLookup` | packages/mylife-home-studio/public/app/store/core-designer/selectors.ts:340-424 | Resolving a member export equals looking its name up in the properties of the inner component's definition |
| `DefinitionProperties.ConfigExportIsLookup` | packages/mylife-home-studio/public/app/store/core-designer/selectors.ts:340-409 | The same for configuration exports |
| `DefinitionProperties.CompleteHasProperties` | packages/mylife-home-studio/public/app/store/core-designer/selectors.ts:340-394 | When exports are complete, every definition has properties |
| `Nesting.UpdateSound` | packages/mylife-home-studio/public/app/store/core-designer/selectors.ts:524-532 | An update that only instantiates templates offered as usable keeps containment acyclic and exports local |
| `Nesting.RunSound` | packages/mylife-home-studio/public/app/store/core-designer/selectors.ts:524-532 | So does every run of such updates |
| `Nesting.OfferedIsUsable` | packages/mylife-home-studio/public/app/store/core-designer/selectors.ts:524-532 | For a new instance in the active view, offered as usable means one of the templates returned |
| `Nesting.SoundStoreResolves` | packages/mylife-home-studio/public/app/store/core-designer/selectors.ts:396-424 | In every store so reached, both resolving recursions end |
| `Debounce.Subscriber.DebouncedNext` | packages/mylife-home-studio/public/app/store/common/rx-operators.ts:130-156 | The held value, if any, is emitted now and nothing stays held; no arrival is lost or duplicated |
| `Debounce.Subscriber.Next` | packages/mylife-home-studio/public/app/store/common/rx-operators.ts:98-123 | After each arrival every arrival is in exactly one block of arrivals with one key, and each emitted or pending value is the merge of one maximal such block |
| `Debounce.Subscriber.DueTimer` | packages/mylife-home-studio/public/app/store/common/rx-operators.ts:158-160 | The due timer emits the held block and cuts it off from later arrivals |
| `Debounce.Subscriber.ZeroTimer` | packages/mylife-home-studio/public/app/store/common/rx-operators.ts:105-110 | A call without key is delivered by its own timer, oldest first |
| `Debounce.Run` | packages/mylife-home-studio/public/app/store/common/rx-operators.ts:82-156 | Over every run nothing is lost or duplicated; when zero-delay timers drain between arrivals no value overtakes another |
| `Debounce.BlocksArePermuted` | packages/mylife-home-studio/public/app/store/common/rx-operators.ts:98-145 | What was emitted and what is pending are exactly the blocks, each once |
| `Debounce.OvertookIffReordered` | packages/mylife-home-studio/public/app/store/common/rx-operators.ts:98-110 | Values leave in arrival order if and only if no held value was flushed past a pending zero-delay timer |
| `Debounce.DebounceMeaning` | packages/mylife-home-studio/public/app/store/common/rx-operators.ts:98-145 | If merging two calls does what both do, the emitted and pending calls do, in order, what all the original calls do in order, unless a value overtook |
| `Debounce.OvertakingRun` | packages/mylife-home-studio/public/app/store/common/rx-operators.ts:101-110 | Without draining the order can be lost: three calls whose second is delivered before the first |
| `ConfigureCalls.KeysCollide` | packages/mylife-home-studio/public/app/store/core-designer/epics.ts:193-195 | Two configure calls share a debounce key if and only if they set the same value, or one configuration name is a colon-joined extension of the other that the component ids make up for |
| `ConfigureCalls.MergeLosesNothing` | packages/mylife-home-studio/public/app/store/core-designer/epics.ts:196-198 | Keeping the newer of two configure calls has the effect of both if and only if they set the same value |
| `ConfigureCalls.ColonsCollide` | packages/mylife-home-studio/public/app/store/core-designer/epics.ts:193-195 | With a colon in a configuration name, two different settings share a key |
| `ConfigureCalls.PlainMergeLaw` | packages/mylife-home-studio/public/app/store/common/designer-epics.ts:156-190 | With colon-free configuration names, merging calls of equal key never loses an effect |
| `ConfigureCalls.LastConfigured` | packages/mylife-home-studio/public/app/store/core-designer/epics.ts:186-200 | A setting has the value of the last call for it, as long as only other settings are configured after it |
| `ConfigureCalls.DebounceTab` | packages/mylife-home-studio/public/app/store/common/designer-epics.ts:145-154 | For one tab, colon-free names and draining timers, the debounced calls leave the configuration that all the calls in order leave, with at most two calls still pending |
| `MpdClient.Session.SendCommand` | packages/mylife-home-core-plugins-driver-mpd/src/engine/client.ts:102-109 | Refused exactly before the greeting, and then nothing changes; otherwise `noidle`, the command with its text and a new `idle` go to the server in this order, and their handlers into the queue |
| `MpdClient.Session.HandleIdleResultsLoop` | packages/mylife-home-core-plugins-driver-mpd/src/engine/client.ts:120-130 | A new idle is sent exactly when nothing is outstanding after the callbacks; only a refused idle that nothing follows leaves the queue empty |
| `MpdClient.Session.Receive` | packages/mylife-home-core-plugins-driver-mpd/src/engine/client.ts:69-100 | The reply at the head is given to the handler of its own request; a callback is given the refusal and the text of the reply; the queue is left empty only by a refused `idle` that nothing followed |
| `MpdClient.Session.ServerReads` | packages/mylife-home-core-plugins-driver-mpd/src/engine/client.ts:102-109 | Whatever the interleaving, a server that waits in idle next gets a `noidle`, never a command or a second idle |
| `MpdClient.Session.ServerChanges` | packages/mylife-home-core-plugins-driver-mpd/src/engine/client.ts:120-130 | A change answers the standing idle, and the lines under way stay acceptable, also when that answer crosses a `noidle` |
| `MpdClient.Run` | packages/mylife-home-core-plugins-driver-mpd/src/engine/client.ts:89-130 | Over every interleaving each handler meets the reply of its own request and, unless the server refuses an `idle`, a greeted client ends its queue with one; the server takes the commands accepted for sending in their order, and each callback is given the answer to its own command |
| `MpdClient.RestsIdle` | packages/mylife-home-core-plugins-driver-mpd/src/engine/client.ts:89-130 | At rest the server waits in idle for the single handler queued |
| `MpdClient.SystemNamesRoundTrip` | packages/mylife-home-core-plugins-driver-mpd/src/engine/client.ts:132-139 | The client emits exactly the subsystems that the server named |
| `MpdClient.PlayerAndMixer` | packages/mylife-home-core-plugins-driver-mpd/src/engine/client.ts:132-139 | A reply that names two subsystems, line by line |
| `RegistryConnector.SnapshotsAgree` | packages/mylife-home-ui/src/sessions/registry-connector.ts:87-100 | There is one snapshot for given components and required states |
| `RegistryConnector.SessionsRegistryConnector.SetRequiredComponentStates` | packages/mylife-home-ui/src/sessions/registry-connector.ts:30-45 | The pairs are grouped by component without loss or addition, and every session then holds the snapshot |
| `RegistryConnector.SessionsRegistryConnector.AddClient` | packages/mylife-home-ui/src/sessions/registry-connector.ts:69-74 | A joining session holds the snapshot; the others are untouched |
| `RegistryConnector.SessionsRegistryConnector.RemoveClient` | packages/mylife-home-ui/src/sessions/registry-connector.ts:76-79 | Only that session leaves |
| `RegistryConnector.SessionsRegistryConnector.OnComponentAdd` | packages/mylife-home-ui/src/sessions/registry-connector.ts:123-134 | After the message every session's fold is the snapshot with the component, and it is listened to if it is a UI component |
| `RegistryConnector.SessionsRegistryConnector.OnComponentRemove` | packages/mylife-home-ui/src/sessions/registry-connector.ts:136-147 | After the message every session's fold is the snapshot without the component, which is no longer listened to |
| `RegistryConnector.SessionsRegistryConnector.OnState` | packages/mylife-home-ui/src/sessions/registry-connector.ts:102-114 | The state is stored; exactly one change message goes to every session if the component is a UI one and the state is required, and none otherwise |
| `RegistryConnector.SessionsRegistryConnector.BuildState` | packages/mylife-home-ui/src/sessions/registry-connector.ts:87-100 | The full message holds exactly the UI components with required states, and of those exactly the required states |
| `RegistryConnector.Run` | packages/mylife-home-ui/src/sessions/registry-connector.ts:30-147 | Over every run of joins, leaves, components, changes and replaced requirements, what each session received folds to exactly what a fresh full message would hold, drawn from the components as the events left them, so all sessions agree |
| `RegistryConnector.ChangeShown` | packages/mylife-home-ui/public/app/store/reducers/registry.ts:11-17 | The client's reducer turns a change message into the snapshot after the change |
| `TimerLanguage.DelayRoundTrip` | packages/mylife-home-core-plugins-logic-timers/src/services/program.ts:169-188 | A number with a known suffix is its delay in milliseconds |
| `TimerLanguage.DelayAccepts` | packages/mylife-home-core-plugins-logic-timers/src/services/program.ts:169-188 | A wait is accepted if and only if its argument is a decimal number without leading zeros and a known suffix, or a hexadecimal number whose decimal numeral leaves only a known suffix of the argument |
| `TimerLanguage.HexIsAccepted` | packages/mylife-home-core-plugins-logic-timers/src/services/program.ts:169-188 | 0xFFFFF is a wait of 1048575 milliseconds |
| `TimerLanguage.HexDigitsInOrder` | packages/mylife-home-core-plugins-logic-timers/src/services/program.ts:172-175 | The sixteen digits of a hexadecimal wait, letters in either case |
| `TimerLanguage.DelayUnits` | packages/mylife-home-core-plugins-logic-timers/src/services/program.ts:10-14 | A wait without suffix is in milliseconds, and `s`, `m` and `h` stand for 1000, 60000 and 3600000 of them |
| `TimerLanguage.StepMeans` | packages/mylife-home-core-plugins-logic-timers/src/services/program.ts:42-81 | A part is read as a step if and only if it is `o` with a digit, or `o*`, followed by `-on` or `-off`, or, where waiting is allowed, `w-` and a delay |
| `TimerLanguage.ProgramText` | packages/mylife-home-core-plugins-logic-timers/src/services/program.ts:39-53 | A program with bars and spaces, step by step, and one with a comma that is empty |
| `TimerLanguage.ParsedProgram` | packages/mylife-home-core-plugins-logic-timers/src/services/program.ts:39-81 | A parsed program only names outputs that exist, and never waits where waiting is not allowed |
| `TimerLanguage.ProgramRoundTrip` | packages/mylife-home-core-plugins-logic-timers/src/services/program.ts:39-81 | Every non-empty program parses back from its text, whatever runs of separators it is written with |
| `TimerLanguage.InvalidIsEmpty` | packages/mylife-home-core-plugins-logic-timers/src/services/program.ts:39-53 | One invalid step makes the whole program empty |
| `TimerLanguage.TimelineAtWait` | packages/mylife-home-core-plugins-logic-timers/src/services/program.ts:107-125 | Standing at a wait, the timeline equals the effect of all the steps before it |
| `TimerLanguage.TimelineAtEnd` | packages/mylife-home-core-plugins-logic-timers/src/services/program.ts:107-125 | After all its waits, the timeline equals the effect of the whole program |
| `TimerLanguage.ExecMeans` | packages/mylife-home-core-plugins-logic-timers/src/services/program.ts:208-241 | After any steps an output has the value of the last of them that sets it or all outputs, or what it had if there is none |
| `TimerLanguage.WaitsCount` | packages/mylife-home-core-plugins-logic-timers/src/services/program.ts:55-58 | The waits of a program are counted once each |
| `SmartTimer.Program.Reset` | packages/mylife-home-core-plugins-logic-timers/src/services/program.ts:133-145 | Leaves the program idle with no timer, and is never reached at a step that cannot be interrupted |
| `SmartTimer.Program.ExecuteStep` | packages/mylife-home-core-plugins-logic-timers/src/services/program.ts:107-125 | Goes on to the next wait, or to the end, with exactly the steps up to there done |
| `SmartTimer.Program.Run` | packages/mylife-home-core-plugins-logic-timers/src/services/program.ts:83-105 | Runs up to the first wait or to the end: every output has the value of the last step so far that sets it; running afterwards if and only if there is a wait |
| `SmartTimer.Program.Expire` | packages/mylife-home-core-plugins-logic-timers/src/services/program.ts:190-199 | Goes on to the next wait or the end, every output set by the last step in between that sets it; ends exactly when all its waits have expired, after exactly its total time |
| `SmartTimer.Program.Interrupt` | packages/mylife-home-core-plugins-logic-timers/src/services/program.ts:127-131 | Leaves no timer set and the owner not running |
| `SmartTimer.SmartTimerBinary.constructor` | packages/mylife-home-core-plugins-logic-timers/src/smart-timer-binary.ts:46-58 | The outputs are those of the init program, which is finished, and nothing runs |
| `SmartTimer.SmartTimerBinary.Clear` | packages/mylife-home-core-plugins-logic-timers/src/smart-timer-binary.ts:130-135 | Stops the trigger program and undoes it with the cancel program, exactly if it ran |
| `SmartTimer.SmartTimerBinary.Trigger` | packages/mylife-home-core-plugins-logic-timers/src/smart-timer-binary.ts:102-108 | Restarts the trigger program from the outputs that cancelling leaves |
| `SmartTimer.SmartTimerBinary.Cancel` | packages/mylife-home-core-plugins-logic-timers/src/smart-timer-binary.ts:110-115 | A true argument stops a running timer with the cancel program's effect; anything else changes nothing |
| `SmartTimer.SmartTimerBinary.Toggle` | packages/mylife-home-core-plugins-logic-timers/src/smart-timer-binary.ts:117-124 | A true argument cancels a running timer and triggers a stopped one |
| `SmartTimer.SmartTimerBinary.Destroy` | packages/mylife-home-core-plugins-logic-timers/src/smart-timer-binary.ts:126-128 | No timer outlives the component |
| `SmartTimer.Run` | packages/mylife-home-core-plugins-logic-timers/src/smart-timer-binary.ts:102-135 | Over every run of events the component behaves as a clock that holds the outputs and the wait it stands at, event by event; `running` says whether the trigger program runs, and it is then on its timeline |
| `OnlineHistory.DropOldest` | packages/mylife-home-studio/public/app/store/online-history/reducer.ts:43-64 | Losing the oldest item loses exactly the links to it |
| `OnlineHistory.OneLink` | packages/mylife-home-studio/public/app/store/online-history/reducer.ts:53-63 | No item is the target of two links, so leaving the loop at the first is sound |
| `OnlineHistory.History.ItemsShift` | packages/mylife-home-studio/public/app/store/online-history/reducer.ts:43-64 | Dropping the oldest item leaves the table of the shorter window with all its links, whatever order the items are searched in |
| `OnlineHistory.History.FindLast` | packages/mylife-home-studio/public/app/store/online-history/reducer.ts:66-94 | Finds the newest item about a state, if there is one |
| `OnlineHistory.History.AddItem` | packages/mylife-home-studio/public/app/store/online-history/reducer.ts:30-41 | The window is the last at most 2000 items ever added, each with the link it should have |
| `OnlineHistory.AddHistoryItems` | packages/mylife-home-studio/public/app/store/online-history/epics.ts:21-54 | Every run of records adds, in order, for a state change one item with its key and value that is not initial, for a component one item and then one initial item per state with its key and value, and for anything else one item |
| `OnlineHistory.AddRecord` | packages/mylife-home-studio/public/app/store/online-history/epics.ts:21-54 | The item of a state change is the newest one, with its key and value, linked to the newest earlier item of its state in the window or to none |
| `OnlineHistory.WindowMeans` | packages/mylife-home-studio/public/app/store/online-history/reducer.ts:13-41 | What is stored is the last at most 2000 items ever added, oldest first, and nothing else |
| `OnlineHistory.LinkMeans` | packages/mylife-home-studio/public/app/store/online-history/reducer.ts:66-85 | In every reachable history a state change links to the newest earlier item of its state in the window, or to nothing when there is none; no other item has a link |
| `Types.RangeRoundTrip` | packages/mylife-home-common/src/components/metadata/types.ts:39-42 | Every range that can be built parses back from its text |
| `Types.EnumRoundTrip` | packages/mylife-home-common/src/components/metadata/types.ts:56-62 | An enum parses back from its text if and only if its values have no comma and their joined text has at least two characters, all after the first being word characters |
| `Types.TypeRoundTrip` | packages/mylife-home-common/src/components/metadata/types.ts:31-87 | Parsing undoes printing for every type, with exactly those enums excepted |
| `Types.RangeInText` | packages/mylife-home-common/src/components/metadata/types.ts:31-42 | A range is found anywhere in a text: what stands before the name, between name and bounds, and after them is ignored |
| `Types.PrintedTexts` | packages/mylife-home-common/src/components/metadata/types.ts:119-121 | The texts of a range, an enum and the other types |
| `Types.PrimitiveLimits` | packages/mylife-home-common/src/components/metadata/types.ts:130-148 | The bounds up to which each primitive is chosen |
| `Types.ParsedIsConstructible` | packages/mylife-home-common/src/components/metadata/types.ts:35-71 | Whatever parses could have been built |
| `Types.PrintInjective` | packages/mylife-home-common/src/components/metadata/types.ts:119-121 | Types without a comma in an enum value that print alike are equal |
| `TypeTexts.TextIsUnique` | packages/mylife-home-common/src/components/metadata/types.ts:228-230 | No other type, commas or not, prints like a given comma-free one if and only if that one is not an enum of three values or more |
| `TypeTexts.TextTellsValues` | packages/mylife-home-common/src/components/metadata/types.ts:228-236 | Every type that prints like a given comma-free one accepts the same values if and only if that one is not an enum of three values or more |
| `TypeTexts.DecodedAccepts` | packages/mylife-home-common/src/components/metadata/types.ts:56-87 | A type read back from its text accepts every value of the printed type if and only if the type parses back, or is an enum that repeats one comma-free value, a closing brace followed by word characters |
| `TypeTexts.ValueIsLost` | packages/mylife-home-common/src/components/metadata/types.ts:56-62 | A comma-free enum that reads back from its text without one of its values |
| `Types.CommasCollide` | packages/mylife-home-common/src/components/metadata/types.ts:228-230 | With commas, two different enums print alike |
| `Codecs.UIntRoundTrip` | packages/mylife-home-common/src/bus/encoding.ts:19-27 | Reading undoes writing for every unsigned integer of the size |
| `Codecs.IntRoundTrip` | packages/mylife-home-common/src/bus/encoding.ts:29-57 | Reading undoes writing for every signed integer of the size |
| `Codecs.ReadThenWrite` | packages/mylife-home-common/src/bus/encoding.ts:39-57 | Writing undoes reading for every buffer of the size |
| `Codecs.LittleEndian` | packages/mylife-home-common/src/bus/encoding.ts:39-47 | The bytes of a 32-bit integer are written and read lowest first |
| `Codecs.TwosComplement` | packages/mylife-home-common/src/bus/encoding.ts:29-57 | Negative integers are written and read in two's complement |
| `Codecs.BooleanByte` | packages/mylife-home-common/src/bus/encoding.ts:9-17 | A boolean is written as 1 or 0, and any byte but 0 is read as true |
| `Codecs.RangeBounds` | packages/mylife-home-common/src/components/metadata/types.ts:123-127 | A range accepts its bounds and what lies between, and neither the integers right outside nor other values |
| `Codecs.KindsAccepted` | packages/mylife-home-common/src/components/metadata/types.ts:163-236 | The kinds of values that the other types accept and refuse |
| `Codecs.WireRoundTrip` | packages/mylife-home-common/src/components/metadata/types.ts:130-148 | Every value that a range or boolean type accepts survives the wire: the primitive chosen covers the range |
| `Codecs.PrimitiveIsTight` | packages/mylife-home-common/src/components/metadata/types.ts:130-148 | A narrower primitive would lose a bound of the range |
| `Codecs.SameTextSameValues` | packages/mylife-home-common/src/components/metadata/types.ts:123-127 | Types without a comma in an enum value that print alike accept the same values |
| `Codecs.CommasAcceptMore` | packages/mylife-home-common/src/components/metadata/types.ts:228-236 | With commas, one of two enums that print alike accepts a value the other refuses |
| `Plugins.EncodePlugin` | packages/mylife-home-common/src/components/metadata/plugin.ts:45-56 | Every member is sent with its type as text, and nothing else is lost or added |
| `Plugins.DecodePlugin` | packages/mylife-home-common/src/components/metadata/plugin.ts:58-71 | Throws exactly when some member type does not parse; otherwise the id is module and name, and the members are those sent |
| `Plugins.PluginRoundTrip` | packages/mylife-home-common/src/components/metadata/plugin.ts:45-71 | Decoding undoes encoding if and only if the plugin's id is `module.name` and its types parse back |
| `Registry.ComponentRegistry.AddPlugin` | packages/mylife-home-common/src/components/registry.ts:94-105 | Refused exactly when the key is taken; the three maps agree afterwards |
| `Registry.ComponentRegistry.RemovePlugin` | packages/mylife-home-common/src/components/registry.ts:107-118 | Refused exactly when the key is free; otherwise the maps agree afterwards if and only if the caller named the owning instance and the registered object |
| `Registry.ComponentRegistry.AddComponent` | packages/mylife-home-common/src/components/registry.ts:147-158 | Refused exactly when the id is taken; the three maps agree afterwards |
| `Registry.ComponentRegistry.RemoveComponent` | packages/mylife-home-common/src/components/registry.ts:160-171 | Refused exactly when the id is free; otherwise the maps agree afterwards if and only if the caller named the owning instance and the registered object |
| `Registry.InstanceKnown` | packages/mylife-home-common/src/components/registry.ts:80-92 | An instance is known if and only if a plugin or a component is registered under it |
| `Registry.Run` | packages/mylife-home-common/src/components/registry.ts:80-171 | Over every run whose removals name owner and object, the three maps agree and hold what each step in turn registered |
| `Registry.FullNamesCollide` | packages/mylife-home-common/src/components/registry.ts:143-145 | Two plugins share `module.name` if and only if both parts agree or a dot shifts between them |
| `Registry.KeysCollide` | packages/mylife-home-common/src/components/registry.ts:143-145 | For colon-free instance names two keys are equal if and only if the names agree up to the nameless instance being "local" and the texts `module.name` agree |
| `Registry.AddRefused` | packages/mylife-home-common/src/components/registry.ts:94-98 | Adding a plugin is refused if and only if an instance of that label holds a plugin with that `module.name` |
| `Registry.DifferentPluginsCollide` | packages/mylife-home-common/src/components/registry.ts:143-145 | Two different plugins of two instances with one key |
| `Bindings.Binding.OnComponentAdd` | packages/mylife-home-core/src/components/binding.ts:48-60 | The component is registered with its states; an endpoint that enters activates the binding exactly when both are there and match, and the current value, if any, is then forwarded once |
| `Bindings.Binding.OnComponentRemove` | packages/mylife-home-core/src/components/binding.ts:62-74 | A component that leaves keeps no listener of the binding |
| `Bindings.Binding.InitBinding` | packages/mylife-home-core/src/components/binding.ts:76-125 | Errors are reported exactly when a member is missing, of the wrong kind, or of a type that prints differently; otherwise one listener is attached and a value that exists is forwarded, once |
| `Bindings.Binding.TerminateBinding` | packages/mylife-home-core/src/components/binding.ts:127-135 | No listener is left |
| `Bindings.Binding.Close` | packages/mylife-home-core/src/components/binding.ts:34-46 | No component keeps a listener of a closed binding |
| `Bindings.Binding.Emit` | packages/mylife-home-core/src/components/binding.ts:137-146 | A state change of the source is forwarded exactly once, and only for the bound state |
| `Bindings.Binding.SetState` | packages/mylife-home-core/src/components/component-host.ts:134-159 | A local state refuses exactly the invalid values and then nothing changes; a valid one is stored, with every other value as it was; exactly the changes are emitted, and the binding forwards exactly what is emitted |
| `Bindings.Run` | packages/mylife-home-core/src/components/binding.ts:23-146 | Over every run the source carries exactly one listener if both endpoints are registered, differ and match, and no component carries one otherwise; the target was last given the source's current value, and every state holds the last value that an event gave it; no forwarded value is refused as long as no enum value holds a comma and the types of remote owners survive their text |
| `Bindings.Binding.ReceiveState` | packages/mylife-home-common/src/components/bus-publisher.ts:35-40 | A remote state stores and emits whatever arrives, changed or not and without validation, with every other value as it was; the binding forwards exactly that |
| `Components.ReceivedAsSent` | packages/mylife-home-common/src/components/bus-publisher.ts:35-40 | Of a range or boolean exactly the value sent arrives, with the primitive of the type read back from text |
| `Components.ReceivedIsValid` | packages/mylife-home-common/src/components/bus-publisher.ts:35-40 | What arrives is a value of the owner's type |
| `Components.RemoteForward` | packages/mylife-home-core/src/components/binding.ts:99-107 | An action whose type prints like that of a remote state accepts every value of the owner if and only if the owner's type survives its text |
| `Components.ForwardAccepted` | packages/mylife-home-core/src/components/component-host.ts:119-132 | A value held by a local or remote state passes the validation of an action whose type prints alike, where types survive their text and hold no comma |
| `Components.RemoteValueRefused` | packages/mylife-home-core/src/components/binding.ts:99-107 | A value published by a remote component that an action of a type printing alike refuses, without any comma |
| `OnlineTables.WithPluginExact` | packages/mylife-home-studio/public/app/store/online-components-view/reducer.ts:50-61 | Setting a new plugin keeps every cross-list exact |
| `OnlineTables.WithoutPluginExact` | packages/mylife-home-studio/public/app/store/online-components-view/reducer.ts:63-78 | Clearing an unused plugin keeps every cross-list exact, and an instance goes with its last plugin |
| `OnlineTables.WithComponentExact` | packages/mylife-home-studio/public/app/store/online-components-view/reducer.ts:80-93 | Setting a new component keeps every cross-list exact |
| `OnlineTables.WithoutComponentExact` | packages/mylife-home-studio/public/app/store/online-components-view/reducer.ts:95-108 | Clearing a component with its states keeps every cross-list exact |
| `OnlineTables.WithStateExact` | packages/mylife-home-studio/public/app/store/online-components-view/reducer.ts:110-124 | Setting a state keeps every cross-list exact, whether it was there or not |
| `OnlineReplica.StateIdInjective` | packages/mylife-home-studio/public/app/store/online-components-view/reducer.ts:110-114 | With colon-free instance names and component ids, composed state ids never collide |
| `OnlineReplica.UsedIffUsed` | packages/mylife-home-studio/public/app/store/online-components-view/reducer.ts:67-70 | The tables call a plugin used exactly when the registry does |
| `OnlineReplica.SetPluginShown` | packages/mylife-home-studio/public/app/store/online-components-view/reducer.ts:50-61 | The tables show the registry with the plugin added |
| `OnlineReplica.ClearPluginShown` | packages/mylife-home-studio/public/app/store/online-components-view/reducer.ts:63-78 | The tables show the registry with the plugin removed |
| `OnlineReplica.SetComponentShown` | packages/mylife-home-studio/public/app/store/online-components-view/reducer.ts:80-93 | The tables show the registry with the component added |
| `OnlineReplica.ClearComponentShown` | packages/mylife-home-studio/public/app/store/online-components-view/reducer.ts:95-108 | The tables show the registry with the component and all its states removed |
| `OnlineReplica.SetStateShown` | packages/mylife-home-studio/public/app/store/online-components-view/reducer.ts:110-124 | The tables show the registry with the new state value |
| `OnlineView.View.ClearPlugin` | packages/mylife-home-studio/public/app/store/online-components-view/reducer.ts:63-78 | Throws exactly while the plugin has components, and then nothing changes |
| `OnlineView.View.SetComponent` | packages/mylife-home-studio/public/app/store/online-components-view/reducer.ts:80-93 | Throws exactly when the plugin is missing, and then nothing changes |
| `OnlineView.View.PushUpdate` | packages/mylife-home-studio/public/app/store/online-components-view/reducer.ts:27-48 | An update a registry can send never throws, and the tables then show what it says |
| `OnlineView.Snapshot` | packages/mylife-home-studio/src/services/online/component-notifier.ts:35-63 | The snapshot rebuilds the whole registry from nothing, and every update in it can be taken |
| `OnlineView.Notify` | packages/mylife-home-studio/src/services/online/component-notifier.ts:69-110 | The updates for one registry event lead from the registry before it to the registry after it |
| `OnlineView.Replay` | packages/mylife-home-studio/src/services/online/component-notifier.ts:35-110 | Replaying the snapshot and every later event rebuilds plugins, components and state values exactly and never throws |
| `OnlineEvents.StateIsLatest` | packages/mylife-home-studio/src/services/online/component-notifier.ts:79-110 | After every run of registry events a state has the value of the last event about it, or none if that removed its component |
| `OnlineEvents.PlaceIsLatest` | packages/mylife-home-studio/src/services/online/component-notifier.ts:79-104 | The same for the instance and plugin of a component |
| `OnlineEvents.InfoIsLatest` | packages/mylife-home-studio/src/services/online/component-notifier.ts:69-77 | The same for a plugin |
| `OnlineEvents.ShownIsLatest` | packages/mylife-home-studio/public/app/store/online-components-view/reducer.ts:110-124 | In tables that show the registry, the row of a state holds what the last event about it said |
| `OnlineView.CloseInstance` | packages/mylife-home-common/src/components/bus-publisher.ts:128-140 | Closing an instance removes components before plugins, so every step can be replayed, and takes away exactly what the instance had |
| `UniqueId.MakeUniqueId` | packages/mylife-home-studio/public/app/components/lib/make-unique-id.ts:1-12 | Ends for every finite set of ids; the wanted id if it is free, else the one with the smallest free suffix |

## Left out

- Core designer updates that do not keep the indexes: `rename-core-template` changes the array it iterates over, `reset` and `REMOVE_OPENED_PROJECT` leave template-owned rows behind, `set-core-plugins` does not reset the lists of a project.
- Core designer fields without index: names, positions, display flags, selection and the notifier of a project.
- The new-binding candidates of the core designer and the UI designer, logging and administration stores: lists without an invariant of their own, or easy members.
- CoreDesigner.Store.SetComponent: the component's definition and view must exist, as the source reads through them; the same holds for the other updates of the core designer, whose rows must exist where the source dereferences them.
- Debounce.Subscriber.Next: completion of the stream is not modelled; the delay of the due timer is not, only that it fires at some point or is replaced.
- ConfigureCalls.DebounceTab: one tab at a time, as the grouping by tab keeps tabs apart; calls without key may change the configuration in any way.
- MpdClient.Session.Receive: replies arrive as whole lines; the buffering of partial text and the escaping of arguments are not modelled. Errors of the connection are not either.
- RegistryConnector.Run: action messages from the clients and the end of the connector are not modelled.
- SmartTimer.Program.Run: called on an idle program, as every caller does; the wall-clock percentage is a parameter and timers fire when they fire. Exceptions thrown by a component's own setters are not modelled.
- TimerLanguage.DelayAccepts: suffixes that JavaScript finds on `Object.prototype` (such as `constructor`) and numbers beyond 2^53 are not modelled.
- The percent smart timer and the scheduler: the same shape as the binary timer.
- OnlineHistory.History.AddItem: time stamps are not modelled, items are in the order they are added.
- Types.TypeRoundTrip: strings are sequences of characters; the sort order of characters outside the basic multilingual plane is not that of UTF-16 units.
- Codecs.WireRoundTrip: text, float and JSON primitives are kept abstract.
- Components.ReceivedIsValid: of text, float and JSON only that the owner's type accepts what arrives, so rounding of floats and a JSON value that turns into null are not modelled.
- Components.ForwardAccepted: an action of a remote target is judged by the type read back here; that its owner validates the value again is not modelled.
- Bindings.Run: the last claim is one way, as a run need not send a value that would be refused; `Components.RemoteForward` and `TypeTexts.TextTellsValues` give both ways for one pair of types.
- CoreDesigner.Store.ApplyProjectUpdate: a rename onto an existing component and a binding whose ends are one member are not among the updates of a consistent server, which refuses both (packages/mylife-home-studio/src/services/project-manager/core/model/view.ts:129-132 and 263-269); the methods behind it say what they do.
- Bindings.Binding.OnComponentAdd: a binding created over components already registered is one that sees them enter in turn; re-entrant loops through bindings, configuration checks and destroyed hosts are not modelled.
- Registry.Run: a removal that does not name owner and object breaks the agreement and ends what is claimed about the run.
- OnlineView.Replay: the snapshot is taken before any later event is sent to the same session, instance names and component ids have no colon, and the type texts of plugins are one value here.
- Notifier maps per session, MQTT, sockets, files, HTTP, the database, build tools, React components and one-line logic plugins: input and output, or claims of one branch.
