# Procast dashboard core in Dafny

Procast is a single-page demand-forecasting dashboard. This project models
its interactive core as pure state machines and proves properties about
them. The core covers:

- the sales-group catalog filter shared by the four selection panels;
- the category slicer;
- the step-by-step panels: Forecast, Dashboard, History and Upload Data;
- the ProAsk chat assistant;
- the navigation sidebar with favourites;
- the application shell, with its login gate, logout confirmation, pop-overs and panel routing.

Each panel is a `State` record, an `Event` datatype for the controls on
screen, an `Enabled` guard saying which controls are present, and a `Next`
function. An event whose control is not on screen leaves the state
unchanged; in particular the slicer can only be clicked on the categories
it lists. Every `Next` keeps an invariant `Inv`, and `RunKeepsInv` lifts it
to any sequence of events. The delays the source simulates with
`setTimeout` become explicit completion events: `GenerationDone`,
`UploadDone` and `ReplyArrives`.

Modules:

- `Basics`: optional values, duplicate-freedom, subsequences, the add-or-remove toggle, `indexOf` and first-occurrence de-duplication.
- `Text`: ASCII `toLowerCase`, `includes`, `trim`, first-match `replace`, `join`, and a splitter for `", "`-joined lists.
- `Catalog`: sales groups, the status badge, and the filter with its `searchTags` flag. The flag is false in Forecast, Dashboard and History and true in Upload Data.
- `CategorySlicer`: the slicer's clicks and highlights.
- `Browse`: the search-and-category state each selection panel owns.
- `ForecastPanel`, `DashboardPanel`, `HistoryPanel`, `UploadPanel`, `ProAsk`, `Sidebar`, `AppShell`: one module per component.
- `Fixtures`: concrete scenarios on a two-group catalog.

Where the code and its surrounding description disagree, the model follows the code:

- **Toggling an entry off and on again.** Clicking a selected category twice, or starring a favourite twice, restores the same members. It restores the same list only when the entry was absent or was the last one: the source re-appends the entry at the end (`ClickTwice`, `ClickTwiceReorders`, `Sidebar.StarTwice`).
- **Search by name only.** The search boxes of Forecast and Dashboard read "by name or Category", but only Upload Data also matches tags. The other three panels match the name only (`Catalog.NameSearchWithinTagSearch`).
- **The slicer's button list.** The slicer always renders its own fixed list: "All", Milk, Juice, Yogurt, Cream, Butter, importation. Forecast and History compute a de-duplicated tag list and pass it as a `categories` property, which the slicer does not read. The model keeps that computed list as `CategoryList`, with its proved properties, but it plays no part in what the slicer shows.
- **The sidebar's collapse flag.** The application passes a collapse flag and its setter to the sidebar, which ignores both and keeps its own. The shell's copy therefore never changes and is not modelled.
- **Sending while a reply is pending.** The chat's Send button is not disabled while a reply is pending, so several replies can be outstanding. They all take the same delay, so they arrive in the order sent. The model keeps them as a first-in-first-out list of pending prompts. The typing indicator is cleared by the first reply that arrives.
- **Uploading twice.** The upload drop zone stays clickable while an upload is in progress. `pendingUploads` counts the outstanding completions. The first completion clears the busy indicator even while another upload is still outstanding (`UploadPanel.DoubleUploadFirstDoneClearsBusy`).

## Model

| member | source | states |
|---|---|---|
| Basics.Toggle | src/app/components/CategorySlicer.tsx:26-30 | the toggled value is present afterwards exactly when it was absent before; no other value's presence changes; an absent value is appended at the end; removing a present value keeps the order of the rest |
| Basics.ToggleKeepsNoDup | src/app/components/Sidebar.tsx:24-26 | toggling never introduces a duplicate into a duplicate-free list |
| Basics.ToggleTwiceRestoresIff | src/app/components/Sidebar.tsx:24-26 | on a duplicate-free list, toggling the same value twice gives the list back if and only if the value was absent or was the last element |
| Basics.IndexOf | src/app/components/Forecast.tsx:166 | the result is -1 exactly when the value is absent; otherwise it is the first position holding the value |
| Basics.Dedupe | src/app/components/Forecast.tsx:166 | the first-occurrence filter has no repeats, has exactly the members of its input, and lists them in the order they first occur |
| Text.Lower | src/app/components/Forecast.tsx:112 | lower-casing keeps the length, folds each character on its own, and leaves no upper-case letter |
| Text.Contains | src/app/components/Forecast.tsx:112 | `includes` finds the empty pattern in every text; a found pattern is no longer than the text and uses only characters the text contains, which is how a missing letter rules a keyword out |
| Text.Trim | src/app/components/ProAsk.tsx:43 | the trimmed text is the piece of the input between a run of leading and a run of trailing white space; it neither starts nor ends with white space, and it is empty exactly when the input is all white space |
| Text.ReplaceFirst | src/app/components/Forecast.tsx:198 | only the first occurrence of the pattern character changes; every other character and the length stay the same |
| Text.JoinSplitRoundTrip | src/app/components/UploadData.tsx:103 | splitting the tags joined with ", " on ", " gives them back, when there is at least one tag and no tag contains a comma |
| Catalog.StatusColor | src/app/components/Forecast.tsx:131-142 | each of the three known statuses gets its own badge colour, and every other string gets grey, in both directions |
| Catalog.StatusLabels | src/app/components/Forecast.tsx:198 | the badge reads "ready", "needs data" and "forecasted" |
| Catalog.Filter | src/app/components/Forecast.tsx:111-116 | the visible groups are a subsequence of the catalog, and a group is visible exactly when it matches the search and the category selection |
| Catalog.FilterCounts | src/app/components/Forecast.tsx:111-116 | a kept group appears as often as in the catalog, and a dropped one not at all |
| Catalog.FilterWithoutFiltersIsIdentity | src/app/components/Forecast.tsx:111-116 | an empty search and no selection show the whole catalog in order |
| Catalog.FilterCaseInsensitive | src/app/components/Forecast.tsx:112 | two search terms that agree after lower-casing show the same groups |
| Catalog.FilterSeesSelectionAsSet | src/app/components/Forecast.tsx:113-114 | only the set of selected categories matters, not their order or repetition |
| Catalog.NameSearchWithinTagSearch | src/app/components/UploadData.tsx:91-97 | name-only search shows a subsequence of what name-or-tag search shows |
| Catalog.WiderSelectionKeepsMore | src/app/components/Forecast.tsx:113-114 | adding categories to a non-empty selection never hides a group (any one selected tag suffices) |
| Catalog.UnknownSoleTagFindsNothing | src/app/components/Forecast.tsx:113-114 | selecting only a category no group carries shows nothing |
| Catalog.FlatTags | src/app/components/Forecast.tsx:166 | the flattened tags are exactly the tags of some group |
| Catalog.CategoryList | src/app/components/Forecast.tsx:166 | the derived category list has no repeats, holds exactly the tags some group carries, and orders them by first appearance |
| CategorySlicer.Click | src/app/components/CategorySlicer.tsx:20-31 | "All" clears the selection; an unselected category is appended at the end; a selected one is removed with the rest kept in order; "All" never enters the selection |
| CategorySlicer.ClearAll | src/app/components/CategorySlicer.tsx:33-35 | Clear does what clicking "All" does |
| CategorySlicer.ShowClearIffAllInactive | src/app/components/CategorySlicer.tsx:37-48 | the Clear button is shown exactly when "All" is not highlighted |
| CategorySlicer.ClickFlipsHighlight | src/app/components/CategorySlicer.tsx:20-42 | clicking a category flips its own highlight and no other category's; clicking "All" lights "All" and nothing else |
| CategorySlicer.AllLitIffNoneLit | src/app/components/CategorySlicer.tsx:9-42 | for selections of listed categories, "All" is lit exactly when no category button is |
| CategorySlicer.ClickKeepsWellFormed | src/app/components/CategorySlicer.tsx:20-31 | clicks keep the selection free of duplicates and of "All" |
| CategorySlicer.ClickTwice | src/app/components/CategorySlicer.tsx:26-30 | clicking a category twice restores the selected members; it restores the list exactly when the category was unselected or last |
| CategorySlicer.ClickTwiceReorders | src/app/components/CategorySlicer.tsx:26-30 | deselecting and reselecting Milk in [Milk, Juice] yields [Juice, Milk] |
| Browse.Apply | src/app/components/Forecast.tsx:155-169 | typing replaces the search term and leaves the selection alone; a slicer click applies the slicer's click rule to the selection and leaves the term alone; Clear empties the selection; clicks on the slicer's own buttons keep the selection well formed and within the listed categories |
| Browse.HighlightsAgree | src/app/components/CategorySlicer.tsx:9-42 | for any selection a panel can hold, "All" is lit exactly when no category button is |
| Browse.VisibleWithoutFilters | src/app/components/Forecast.tsx:104-116 | a fresh panel lists the whole catalog |
| ForecastPanel.FilteredGroups | src/app/components/Forecast.tsx:111-116 | the cards are a subsequence of the catalog, matched by name only and by category |
| ForecastPanel.Next | src/app/components/Forecast.tsx:102-129 | the catalog never changes; a control not on screen does nothing; a group is chosen whenever the panel is past the selection step or generating |
| ForecastPanel.SlicerHighlightsAgree | src/app/components/Forecast.tsx:164-169 | in every state reached from a fresh panel, the slicer lights "All" exactly when it lights no category |
| ForecastPanel.RunKeepsInv | src/app/components/Forecast.tsx:102-129 | every sequence of actions and completions keeps the invariant and the catalog |
| ForecastPanel.PickSelects | src/app/components/Forecast.tsx:118-121 | picking a card selects that group and opens the configuration |
| ForecastPanel.PickThenBackKeepsFilters | src/app/components/Forecast.tsx:118-121 | going back to the cards keeps the search term, the selection and so the same cards |
| ForecastPanel.GenerateThenDone | src/app/components/Forecast.tsx:123-129 | generating sets the busy flag; its completion clears it and shows results for the unchanged configuration; back returns to the configuration |
| ForecastPanel.StepEntries | src/app/components/Forecast.tsx:118-129 | results are reached only by a pending generation completing; the selection step is left only by a pick or a completion |
| DashboardPanel.FilteredGroups | src/app/components/Dashboard.tsx:110-115 | the cards are a subsequence of the catalog, matched by name only and by category |
| DashboardPanel.NoResultsIffNothingToPick | src/app/components/Dashboard.tsx:195-199 | the "no sales groups found" message shows exactly when no card can be picked |
| DashboardPanel.Next | src/app/components/Dashboard.tsx:105-120 | the catalog never changes; a control not on screen does nothing; the analytics step always has a group from the catalog |
| DashboardPanel.SlicerHighlightsAgree | src/app/components/Dashboard.tsx:143-147 | in every state reached from a fresh panel, the slicer lights "All" exactly when it lights no category |
| DashboardPanel.RunKeepsInv | src/app/components/Dashboard.tsx:105-120 | every sequence of actions keeps the invariant and the catalog |
| DashboardPanel.PickThenBack | src/app/components/Dashboard.tsx:117-120 | picking a card shows its analytics; back returns to the cards with the filters kept |
| HistoryPanel.FilteredGroups | src/app/components/History.tsx:145-150 | the cards are a subsequence of the catalog, matched by name only and by category |
| HistoryPanel.Next | src/app/components/History.tsx:138-160 | the catalog and history never change; a control not on screen does nothing; an open dialog always shows a row of the history |
| HistoryPanel.SlicerHighlightsAgree | src/app/components/History.tsx:195-200 | in every state reached from a fresh panel, the slicer lights "All" exactly when it lights no category |
| HistoryPanel.RunKeepsInv | src/app/components/History.tsx:138-160 | every sequence of actions keeps the invariant, the catalog and the history |
| HistoryPanel.PickThenBack | src/app/components/History.tsx:152-155 | picking a card lists its history; back returns to the cards with the filters kept |
| HistoryPanel.ViewOpensDialog | src/app/components/History.tsx:157-160 | viewing a row opens the dialog on exactly that row and changes nothing else |
| UploadPanel.FilteredGroups | src/app/components/UploadData.tsx:91-97 | the cards are a subsequence of the catalog, matched by name or any tag and by category |
| UploadPanel.Next | src/app/components/UploadData.tsx:81-123 | the catalog never changes; a control not on screen does nothing; the busy indicator implies an outstanding upload |
| UploadPanel.SlicerHighlightsAgree | src/app/components/UploadData.tsx:163-166 | in every state reached from a fresh panel, the slicer lights "All" exactly when it lights no category |
| UploadPanel.RunKeepsInv | src/app/components/UploadData.tsx:81-123 | every sequence of actions and completions keeps the invariant and the catalog |
| UploadPanel.PickPrefills | src/app/components/UploadData.tsx:99-106 | picking a card opens the form in Update mode with the group's name, an empty description and no completed upload, and its tags field reads back as the group's tags |
| UploadPanel.CreateNewClears | src/app/components/UploadData.tsx:108-115 | "create new" opens an empty form in Create mode |
| UploadPanel.UploadThenDone | src/app/components/UploadData.tsx:117-123 | an upload shows the busy indicator; its completion shows the preview; Cancel hides it; Confirm returns to the cards |
| UploadPanel.DoubleUploadFirstDoneClearsBusy | src/app/components/UploadData.tsx:117-123 | after two clicks, the first completion hides the busy indicator although an upload is still outstanding |
| ProAsk.Classify | src/app/components/ProAsk.tsx:69-89 | a topic's reply is chosen only if the lower-cased prompt mentions one of its keywords, and never when a higher-priority topic is mentioned |
| ProAsk.FallbackIffNoTopic | src/app/components/ProAsk.tsx:69-89 | the fallback reply is given exactly when no keyword of any topic occurs |
| ProAsk.ClassifyIgnoresCase | src/app/components/ProAsk.tsx:70 | a prompt and its lower-cased form get the same reply |
| ProAsk.ExplainPromptReply | src/app/components/ProAsk.tsx:72-74 | the suggestion "Explain last forecast" gets the forecast explanation |
| ProAsk.SpikePromptReply | src/app/components/ProAsk.tsx:76-78 | the suggestion "Why did sales spike?" gets the spike explanation |
| ProAsk.ComparePromptGetsSpikeReply | src/app/components/ProAsk.tsx:76-82 | the suggestion "Compare sales groups" mentions "compare" yet gets the spike explanation, because "sales" is tested first |
| ProAsk.AccuracyPromptReply | src/app/components/ProAsk.tsx:84-86 | the suggestion "Show accuracy trends" gets the accuracy summary |
| ProAsk.Next | src/app/components/ProAsk.tsx:41-67 | every action keeps the conversation invariant: one greeting first; pending prompts are the latest sent; all earlier prompts were answered in order; the typing indicator implies a pending reply |
| ProAsk.RunKeepsInv | src/app/components/ProAsk.tsx:28-67 | every sequence of actions and replies keeps the conversation invariant |
| ProAsk.SuggestionSendsItself | src/app/components/ProAsk.tsx:42-54 | clicking a suggested prompt sends exactly that prompt whatever the input box holds, and clears the input box |
| ProAsk.InputSent | src/app/components/ProAsk.tsx:42-54 | Enter or the Send button sends the input box's text when it is not blank, clears the box and schedules its reply |
| ProAsk.SendEffect | src/app/components/ProAsk.tsx:41-55 | blank text changes nothing; otherwise exactly one user message with the text is appended, the input is cleared and the typing indicator shown |
| ProAsk.ReplyEffect | src/app/components/ProAsk.tsx:57-66 | a reply appends exactly one assistant message answering the oldest pending prompt and hides the typing indicator |
| ProAsk.SendThenReply | src/app/components/ProAsk.tsx:41-67 | a send followed by its reply adds the user's message and its answer, and nothing is left pending |
| ProAsk.SettledAnswersAll | src/app/components/ProAsk.tsx:57-66 | once nothing is pending, every message the user sent has been answered, one for one and in order |
| ProAsk.SuggestionsIffNothingSent | src/app/components/ProAsk.tsx:155 | the suggested prompts are shown exactly until the user has sent something |
| ProAsk.WhitespaceRejected | src/app/components/ProAsk.tsx:43 | whitespace-only text is never sent |
| Sidebar.NavIdsDistinct | src/app/components/Sidebar.tsx:15-22 | the six entries have distinct ids |
| Sidebar.Find | src/app/components/Sidebar.tsx:46 | the lookup returns the first entry with the id, and nothing exactly when no entry has it |
| Sidebar.FavoriteItems | src/app/components/Sidebar.tsx:42-61 | the favourites section shows only entries whose ids are starred, in starring order |
| Sidebar.FavoriteItemsComplete | src/app/components/Sidebar.tsx:45-47 | every starred id that names an entry shows that entry |
| Sidebar.ToggleFavorite | src/app/components/Sidebar.tsx:24-26 | the star flips exactly that id's membership, appending a newly starred id at the end |
| Sidebar.ActiveEntryUnique | src/app/components/Sidebar.tsx:67 | at most one entry is highlighted, and one is exactly when the active section is an entry id |
| Sidebar.Next | src/app/components/Sidebar.tsx:12-35 | favourites stay duplicate-free and known; the collapse button flips only the collapse flag; stars are inert while collapsed |
| Sidebar.FavoritesHeadingIffEntries | src/app/components/Sidebar.tsx:42-61 | while expanded, the favourites heading is shown exactly when at least one entry is listed under it |
| Sidebar.StarTwice | src/app/components/Sidebar.tsx:24-26 | starring twice restores the starred set; it restores the list exactly when the id was unstarred or last |
| Sidebar.FavoritesShowStarred | src/app/components/Sidebar.tsx:42-61 | an entry is in the favourites section exactly when its id is starred |
| AppShell.RenderContent | src/app/App.tsx:53-70 | the id of a panel shows that panel, and any other id shows the overview |
| AppShell.RenderSectionId | src/app/App.tsx:53-70 | each panel's own id shows that panel |
| AppShell.NavItemsRenderTheirPanel | src/app/App.tsx:53-70 | each sidebar entry leads to the panel whose id it carries |
| AppShell.Next | src/app/App.tsx:36-47 | the logout dialog is only ever open while signed in, the sidebar keeps its invariant, and inert controls do nothing |
| AppShell.RunKeepsInv | src/app/App.tsx:23-51 | every sequence of actions keeps the shell invariant |
| AppShell.SignedOutShowsLogin | src/app/App.tsx:49-51 | while signed out, nothing but signing in changes the state |
| AppShell.SignInShowsSection | src/app/App.tsx:49-51 | signing in shows the remembered section's panel |
| AppShell.NavigateShowsPanel | src/app/App.tsx:36-38 | choosing a section stores it and shows its panel |
| AppShell.LogoutThenCancel | src/app/App.tsx:40-42 | logout only opens the confirmation; cancelling restores the exact prior state |
| AppShell.LogoutConfirmSignIn | src/app/App.tsx:44-47 | confirming signs out and closes the dialog; signing in again returns to the same screen with a fresh sidebar |
| AppShell.PopoverTogglesAreInvolutions | src/app/App.tsx:92-127 | the notification and settings buttons each flip only their own pop-over, and twice is nothing |
| Fixtures.MilkSelectsFirst | src/app/components/Forecast.tsx:113-114 | on "APM 1L" (Milk) and "BJ MS 1L" (Juice), selecting Milk shows only the first |
| Fixtures.MilkOrJuiceSelectsBoth | src/app/components/Forecast.tsx:113-114 | selecting Milk and Juice shows both groups |
| Fixtures.ApmSearchIgnoresCase | src/app/components/Forecast.tsx:112 | searching "apm" finds "APM 1L" and not "BJ MS 1L" |
| Fixtures.AllAfterMilkResets | src/app/components/CategorySlicer.tsx:21-24 | clicking "All" after Milk clears the selection and lights "All" |

## Left out

- Rendering, styling, icons and charts are left out. Theme and font size are kept only as state.
- Time is left out. The simulated delays of 1.5, 2 and 3 seconds are completion events without latency, and a pending timer is never cancelled.
- `Date.now()` message ids and timestamps are left out, and so is time formatting.
- `toFixed` number formatting is left out, because the model has no floating point.
- The `reverse()` display order of charts and tables is left out, because it is presentation only.
- The Intro login page and the Overview panel are left out: only the sign-in event and the overview's panel identity are kept.
- The mock catalogs, histories and charts are left out. Panels take the catalog and the history as parameters, and the Fixtures module uses two concrete groups as test values.
- The notifications list is left out, because it is fixed and nothing edits it. Only the pop-over flag is kept.
- Panels are not reset on navigation: each panel is its own machine, and React unmounting is not modelled across panels. The sidebar is the exception: it is reset on sign-out because it unmounts with the main layout.
- Text.Lower: case folding covers ASCII letters only, because JavaScript's Unicode tables are out of scope.
- Text.Trim: also covers ASCII white space only, for the same reason; JavaScript's `trim` strips some further Unicode space characters.
- Assistant messages in the chat transcript: each is stored as the prompt it answers, and `Content` derives the reply text, because the reply is a pure function of the prompt.
