# Together — profile list filter and user view model

This project models the profile-list screen of the Together Android app
(`ListagemScreen.kt`) and its view model (`UserViewModel.kt`) in Dafny, and proves
properties of the model.

The screen shows a list of user profiles. A profile has a first name (`nome`), a last name
(`sobrenome`), a role (`cargo`), an image URL (`imagemURL`) and category tags. Each tag has an
internal `name` and a `displayName`.

- **Default view.** With no search text and no selected category, the screen shows the profiles
  that have an image. A profile also needs a category whose display name is one of the current
  user's primary categories (`userCategories`).
- **Advanced search.** Otherwise, a profile is shown when three things hold. One of its category
  internal names is selected, or nothing is selected. The search text occurs in its first or
  last name, ignoring case, or the text is empty. Its image URL is not blank.
- **Category buttons** toggle an internal name in the selection.
- **Primary-category line.** Each primary category is shown as `#` followed by the category with
  every `#` removed and trimmed. The labels are joined by `, `.

The view model holds:

- the profile list mirrored from the repository's subscription;
- the current user's id, once the repository has assigned one;
- the display names of the current user's categories.

The id gates two operations: updating the user's categories and fetching them.

Files:

- `model.dfy` (module `Model`): `Option`, `Category`, `User`, and the `map`, `toSet` and
  `intersect` helpers.
- `text.dfy` (module `Text`): the Kotlin string operations the filter uses. These are
  `isWhitespace`/`isBlank`, `contains(ignoreCase = true)`, `trim`, `replace` and
  `joinToString`.
- `lists.dfy` (module `Lists`): `List.filter`, with its subsequence, multiplicity and
  idempotence lemmas.
- `listagem_screen.dfy` (module `ListagemScreen`): the filter engine, the toggle, the labels,
  and the search component's remembered state as the class `AdvancedSearch`.
- `user_view_model.dfy` (module `ViewModel`): the class `UserViewModel`.

Each asynchronous call of the view model is one synchronous method that takes the repository's
answer as a parameter. `UpdateUserCategories` and `FetchUserCategories` also return the request
they send to the repository. `LoadUsers` takes the delivered snapshots, and `AddUser` takes the
id the repository returned.

In these points the model follows the code, which a reader might not expect:

- A profile's image must be *not blank* (`isNotBlank`). Non-empty is not enough: a URL made only
  of whitespace is excluded.
- `fetchUserCategories` without a current user is a silent no-op. It has no completion callback
  to report a failure through.
- The primary categories are a list (shown in order in the label line) that the filter converts
  to a set.

## Model

| member | source | states |
|---|---|---|
| `Lists.Filter` | app/src/main/java/br/com/noke/twogether/screens/ListagemScreen.kt:151-154 | `List.filter`: every kept element satisfies the predicate and comes from the input; an input element is in the result exactly when the predicate accepts it |
| `Lists.FilterIsSubsequence` | app/src/main/java/br/com/noke/twogether/screens/ListagemScreen.kt:157-167 | a filtered list is a subsequence of its input: only deletions, relative order kept |
| `Lists.FilterCounts` | app/src/main/java/br/com/noke/twogether/screens/ListagemScreen.kt:157-167 | an accepted element occurs in the result exactly as often as in the input, a rejected one never |
| `Lists.FilterIdempotent` | app/src/main/java/br/com/noke/twogether/screens/ListagemScreen.kt:151-167 | filtering a filtered list again with the same predicate returns it unchanged |
| `Lists.FilterAppend` | app/src/main/java/br/com/noke/twogether/screens/ListagemScreen.kt:151-167 | filtering a concatenation is the concatenation of the filtered parts |
| `ListagemScreen.DefaultMatch` | app/src/main/java/br/com/noke/twogether/screens/ListagemScreen.kt:151-153 | the default branch's filter lambda: a non-blank image URL and a non-empty intersection of the category display names with the primary categories. Definition; properties in `DefaultBranchExact` and `DisplayNameIntersection` |
| `ListagemScreen.MatchesCategory` | app/src/main/java/br/com/noke/twogether/screens/ListagemScreen.kt:158-160 | the source's `matchesCategory`: nothing selected, or a non-empty intersection of the category internal names with the selection. Definition; properties in `SelectionSound` and `NameIntersection` |
| `ListagemScreen.MatchesSearch` | app/src/main/java/br/com/noke/twogether/screens/ListagemScreen.kt:161-164 | the source's `matchesSearch`: empty text, or the text contained, ignoring case, in the first or the last name. Definition; properties in `SearchSound` and `SearchScenario` |
| `ListagemScreen.AdvancedMatch` | app/src/main/java/br/com/noke/twogether/screens/ListagemScreen.kt:157-166 | the advanced branch's filter lambda: `matchesCategory && matchesSearch && hasImage`. Definition; properties in `AdvancedComplete` and `VisibleMembership` |
| `ListagemScreen.DefaultFiltered` | app/src/main/java/br/com/noke/twogether/screens/ListagemScreen.kt:54-59 | the screen's default list is a subsequence of the profiles and holds no profile with a blank image URL |
| `ListagemScreen.VisibleUsers` | app/src/main/java/br/com/noke/twogether/screens/ListagemScreen.kt:148-168 | in both branches the shown list is a subsequence of the profiles (nothing added or reordered) and never holds a profile whose image URL is empty or all whitespace |
| `ListagemScreen.VisibleCounts` | app/src/main/java/br/com/noke/twogether/screens/ListagemScreen.kt:149-167 | a profile the active branch accepts appears as many times as in the input, any other profile never: nothing is duplicated or dropped |
| `ListagemScreen.VisibleMembership` | app/src/main/java/br/com/noke/twogether/screens/ListagemScreen.kt:149-167 | a profile is shown iff it is in the input and the branch chosen by the criteria accepts it |
| `ListagemScreen.DisplayNameIntersection` | app/src/main/java/br/com/noke/twogether/screens/ListagemScreen.kt:152-153 | the display-name intersection is non-empty iff some category's display name is a primary category |
| `ListagemScreen.NameIntersection` | app/src/main/java/br/com/noke/twogether/screens/ListagemScreen.kt:159-160 | the internal-name intersection is non-empty iff some category's internal name is selected |
| `ListagemScreen.DefaultBranchExact` | app/src/main/java/br/com/noke/twogether/screens/ListagemScreen.kt:149-154 | with empty text and selection, a profile is shown iff it is in the input, its image URL is not blank and some category display name is a primary category (both directions) |
| `ListagemScreen.SelectionSound` | app/src/main/java/br/com/noke/twogether/screens/ListagemScreen.kt:158-160 | with a non-empty selection, every shown profile has a category whose internal name (not display name) is selected |
| `ListagemScreen.SearchSound` | app/src/main/java/br/com/noke/twogether/screens/ListagemScreen.kt:161-164 | with non-empty search text, every shown profile has the case-folded text as a substring of its case-folded first or last name |
| `ListagemScreen.AdvancedComplete` | app/src/main/java/br/com/noke/twogether/screens/ListagemScreen.kt:157-167 | in the advanced branch, every input profile with a non-blank image, a name match and a category match is shown, whatever the primary categories are |
| `ListagemScreen.AdvancedIgnoresPrimaryCategories` | app/src/main/java/br/com/noke/twogether/screens/ListagemScreen.kt:155-167 | in the advanced branch the primary categories do not influence the result |
| `ListagemScreen.VisibleIdempotent` | app/src/main/java/br/com/noke/twogether/screens/ListagemScreen.kt:148-168 | filtering the shown list again with the same inputs returns the same list |
| `ListagemScreen.DefaultScenario` | app/src/main/java/br/com/noke/twogether/screens/ListagemScreen.kt:149-154 | of two profiles in the user's primary category, the one with an empty image URL is not shown by default |
| `ListagemScreen.SearchScenario` | app/src/main/java/br/com/noke/twogether/screens/ListagemScreen.kt:161-166 | searching "an" shows "Ana Silva" (case ignored) and not "Bea Lima" |
| `ListagemScreen.SelectionUsesInternalName` | app/src/main/java/br/com/noke/twogether/screens/ListagemScreen.kt:158-160 | selecting a category's display name matches nothing; selecting its internal name matches |
| `ListagemScreen.Toggle` | app/src/main/java/br/com/noke/twogether/screens/ListagemScreen.kt:251-255 | the clicked name is in the new selection iff it was not in the old one; every other name keeps its membership |
| `ListagemScreen.ToggleTwice` | app/src/main/java/br/com/noke/twogether/screens/ListagemScreen.kt:251-255 | toggling the same category twice restores the selection |
| `ListagemScreen.TopicLabelShape` | app/src/main/java/br/com/noke/twogether/screens/ListagemScreen.kt:71 | a label starts with `#`, contains no other `#`, and the text after the `#` neither starts nor ends with whitespace |
| `ListagemScreen.TopicLabel` | app/src/main/java/br/com/noke/twogether/screens/ListagemScreen.kt:71 | the label of one category (the lambda `"#${it.replace("#", "").trim()}"`): `#` followed by the category with every `#` removed (the rest in order) and only its surrounding whitespace dropped, so that the text after the `#` neither starts nor ends with whitespace |
| `ListagemScreen.TopicLabelPadded` | app/src/main/java/br/com/noke/twogether/screens/ListagemScreen.kt:71 | a category stored as " #word " is shown as "#word" |
| `ListagemScreen.PaddedTrim` | app/src/main/java/br/com/noke/twogether/screens/ListagemScreen.kt:71 | one space on each side of a word with non-whitespace ends is trimmed away |
| `ListagemScreen.TopicLabelRepeatedMarker` | app/src/main/java/br/com/noke/twogether/screens/ListagemScreen.kt:71 | a category stored as "##word" is shown as "#word" |
| `ListagemScreen.TopicLabelIdempotent` | app/src/main/java/br/com/noke/twogether/screens/ListagemScreen.kt:71 | labelling a label returns it unchanged |
| `ListagemScreen.Labels` | app/src/main/java/br/com/noke/twogether/screens/ListagemScreen.kt:71 | one label per primary category, in order |
| `ListagemScreen.PrimaryTopicsText` | app/src/main/java/br/com/noke/twogether/screens/ListagemScreen.kt:69-75 | the line is shown iff there are primary categories, and then it starts with `#` |
| `ListagemScreen.PrimaryTopicsOne` | app/src/main/java/br/com/noke/twogether/screens/ListagemScreen.kt:71 | with one primary category the line is exactly that category's label |
| `ListagemScreen.PrimaryTopicsAppend` | app/src/main/java/br/com/noke/twogether/screens/ListagemScreen.kt:71 | one more primary category appends `, ` and its label to the line; with `PrimaryTopicsOne` this makes the line the labels in order, separated by `, ` |
| `ListagemScreen.PrimaryTopicsMarkers` | app/src/main/java/br/com/noke/twogether/screens/ListagemScreen.kt:71 | the shown line holds exactly one `#` per primary category |
| `ListagemScreen.AdvancedSearch.constructor` | app/src/main/java/br/com/noke/twogether/screens/ListagemScreen.kt:139-143 | the component starts with empty text and selection, and its first effect run leaves the default list |
| `ListagemScreen.AdvancedSearch.FilterUsers` | app/src/main/java/br/com/noke/twogether/screens/ListagemScreen.kt:148-170 | the remembered list becomes the filter of the current inputs and is handed to the screen |
| `ListagemScreen.AdvancedSearch.OnValueChange` | app/src/main/java/br/com/noke/twogether/screens/ListagemScreen.kt:182-185 | the text becomes the new value and the remembered list is recomputed from it |
| `ListagemScreen.AdvancedSearch.OnCategoryClick` | app/src/main/java/br/com/noke/twogether/screens/ListagemScreen.kt:250-257 | the selection becomes the toggle of the old one and the remembered list is recomputed |
| `ListagemScreen.AdvancedSearch.Recompose` | app/src/main/java/br/com/noke/twogether/screens/ListagemScreen.kt:173-175 | new inputs are stored; the list is recomputed and handed on only when the profile list changed, since the effect is not keyed on the primary categories |
| `Text.IsWhitespace` | app/src/main/java/br/com/noke/twogether/screens/ListagemScreen.kt:152 | `Char.isWhitespace` on the JVM, as the set of code points it accepts. Definition; used by `IsBlank` and `Trim` |
| `Text.IsBlank` | app/src/main/java/br/com/noke/twogether/screens/ListagemScreen.kt:152 | `isBlank()`: every character is whitespace, so the empty string is blank. Definition; properties in `NotBlankWitness` |
| `Text.IsNotBlank` | app/src/main/java/br/com/noke/twogether/screens/ListagemScreen.kt:165 | `isNotBlank()`: the negation of `isBlank()`. Definition; properties in `NotBlankWitness` |
| `Text.NotBlankWitness` | app/src/main/java/br/com/noke/twogether/screens/ListagemScreen.kt:152 | a string is not blank iff some character is not whitespace; a not-blank string is non-empty |
| `Text.UppercaseChar` | app/src/main/java/br/com/noke/twogether/screens/ListagemScreen.kt:161-164 | upper-casing maps `a`..`z` to `A`..`Z` and fixes every other character |
| `Text.LowercaseChar` | app/src/main/java/br/com/noke/twogether/screens/ListagemScreen.kt:161-164 | lower-casing maps `A`..`Z` to `a`..`z` and fixes every other character |
| `Text.CharEqualsIgnoreCase` | app/src/main/java/br/com/noke/twogether/screens/ListagemScreen.kt:161-164 | the character comparison of `contains(..., ignoreCase = true)`: equal, or equal upper-cased, or equal upper- then lower-cased. Definition; properties in `CharEqualsIgnoreCaseIsFoldEquality` |
| `Text.CharEqualsIgnoreCaseIsFoldEquality` | app/src/main/java/br/com/noke/twogether/screens/ListagemScreen.kt:161-164 | two characters are equal ignoring case iff their case folds are equal |
| `Text.FoldAll` | app/src/main/java/br/com/noke/twogether/screens/ListagemScreen.kt:161-164 | the case fold of a string has its length and folds each character in place |
| `Text.RegionMatchesIgnoreCase` | app/src/main/java/br/com/noke/twogether/screens/ListagemScreen.kt:161-164 | the text matches the name at one offset, character by character, ignoring case. Definition; properties in `ContainsIgnoreCaseIffFoldedSubstring` |
| `Text.ContainsIgnoreCase` | app/src/main/java/br/com/noke/twogether/screens/ListagemScreen.kt:161-164 | `contains(other, ignoreCase = true)`: the text matches at some offset. Definition; properties in `ContainsIgnoreCaseIffFoldedSubstring` |
| `Text.ContainsIgnoreCaseIffFoldedSubstring` | app/src/main/java/br/com/noke/twogether/screens/ListagemScreen.kt:161-164 | `contains(ignoreCase = true)` holds iff the folded text is a substring of the folded name (both directions) |
| `Text.TrimStart` | app/src/main/java/br/com/noke/twogether/screens/ListagemScreen.kt:71 | the result is a suffix of the input, everything dropped is whitespace, and it does not start with whitespace |
| `Text.TrimEnd` | app/src/main/java/br/com/noke/twogether/screens/ListagemScreen.kt:71 | the result is a prefix of the input, everything dropped is whitespace, and it does not end with whitespace |
| `Text.Trim` | app/src/main/java/br/com/noke/twogether/screens/ListagemScreen.kt:71 | the trimmed string is a contiguous slice of the input with only whitespace outside it; it neither starts nor ends with whitespace, and it is empty iff the input is blank |
| `Text.TrimKeepsTrimmed` | app/src/main/java/br/com/noke/twogether/screens/ListagemScreen.kt:71 | trimming a string with non-whitespace ends leaves it unchanged |
| `Text.RemoveChar` | app/src/main/java/br/com/noke/twogether/screens/ListagemScreen.kt:71 | `replace("#", "")` is the input filtered to the characters other than `#`: none left, every other character kept, in order and as many times as before |
| `Text.RemoveCharCons` | app/src/main/java/br/com/noke/twogether/screens/ListagemScreen.kt:71 | `replace(c, "")` drops a leading `c` and keeps any other leading character |
| `Text.RemoveCharAppend` | app/src/main/java/br/com/noke/twogether/screens/ListagemScreen.kt:71 | removing a character from a concatenation removes it from each part |
| `Text.RemoveCharAbsent` | app/src/main/java/br/com/noke/twogether/screens/ListagemScreen.kt:71 | removing a character that does not occur changes nothing |
| `Text.JoinToString` | app/src/main/java/br/com/noke/twogether/screens/ListagemScreen.kt:71 | `joinToString(separator)`: the parts in order with the separator between neighbours. Definition; properties in `JoinSnoc`, `JoinToStringStart` and `JoinToStringCount` |
| `Text.JoinSnoc` | app/src/main/java/br/com/noke/twogether/screens/ListagemScreen.kt:71 | joining one more part appends the separator and that part to the joined string |
| `Text.JoinToStringStart` | app/src/main/java/br/com/noke/twogether/screens/ListagemScreen.kt:71 | a join whose first part is non-empty starts with that part's first character |
| `Text.JoinToStringCount` | app/src/main/java/br/com/noke/twogether/screens/ListagemScreen.kt:71 | a character occurring once per part and never in the separator occurs once per part in the joined string |
| `Model.Names` | app/src/main/java/br/com/noke/twogether/viewmodel/UserViewModel.kt:48 | the internal names of the categories, one per category, in order |
| `Model.DisplayNames` | app/src/main/java/br/com/noke/twogether/viewmodel/UserViewModel.kt:59 | the display names of the categories, one per category, in order |
| `Model.SetOf` | app/src/main/java/br/com/noke/twogether/screens/ListagemScreen.kt:153 | `toSet()`: the set of the list's elements. Definition; used by `DisplayNameIntersection` |
| `Model.Intersect` | app/src/main/java/br/com/noke/twogether/screens/ListagemScreen.kt:152-160 | `intersect(other)`: the distinct elements of the list that are also in the other collection. Definition; properties in `DisplayNameIntersection` and `NameIntersection` |
| `ViewModel.UserViewModel.constructor` | app/src/main/java/br/com/noke/twogether/viewmodel/UserViewModel.kt:14-18 | a new view model has no profiles, no current user id and no primary categories |
| `ViewModel.UserViewModel.LoadUsers` | app/src/main/java/br/com/noke/twogether/viewmodel/UserViewModel.kt:25-36 | each delivered snapshot replaces the profile list wholesale; after the stream ends or fails the list is the last snapshot, or unchanged if none arrived; nothing else changes |
| `ViewModel.UserViewModel.AddUser` | app/src/main/java/br/com/noke/twogether/viewmodel/UserViewModel.kt:38-43 | the id becomes whatever the repository returned, even when absent; completion reports true iff there is now an id |
| `ViewModel.UserViewModel.UpdateUserCategories` | app/src/main/java/br/com/noke/twogether/viewmodel/UserViewModel.kt:45-52 | without an id: reports false and sends no request; with an id: sends that id and the categories' internal names in input order, and reports the repository's answer unchanged |
| `ViewModel.UserViewModel.FetchUserCategories` | app/src/main/java/br/com/noke/twogether/viewmodel/UserViewModel.kt:54-63 | requests exactly the current id, or nothing; without an id or without a found user the primary categories are unchanged; otherwise they become the user's category display names in order |
| `ViewModel.UpdateBeforeAddFails` | app/src/main/java/br/com/noke/twogether/viewmodel/UserViewModel.kt:46-51 | a category update before any user was added reports failure and sends nothing |
| `ViewModel.UpdateAfterAddUsesNewId` | app/src/main/java/br/com/noke/twogether/viewmodel/UserViewModel.kt:40-48 | after an add that returned an id, the category update is sent for exactly that id |
| `ViewModel.FailedAddClearsId` | app/src/main/java/br/com/noke/twogether/viewmodel/UserViewModel.kt:40-51 | an add whose repository returns no id clears the earlier id, so the next category update fails |

## Left out

- `Text.UppercaseChar`: maps only the ASCII letters. Kotlin's `uppercaseChar` uses the full Unicode tables, which are not modelled here.
- `Text.LowercaseChar`: maps only the ASCII letters, for the same reason.
- `Text.IsWhitespace` follows the current Unicode separator categories. JVM releases whose Unicode version differs (U+180E, for one) are not modelled.
- Compose layout and rendering are not modelled. This covers `Logo`, `UserItem`, `UserImage`, `LazyColumn`, `FlowRow`, colours, paddings and the `isCardVisible` expand/collapse. None of them has a behavioural contract.
- Coil image loading and `Log` calls are not modelled. They are foreign side effects.
- Coroutines, `viewModelScope.launch` and `StateFlow`/`collectAsState` propagation are not modelled. Neither is the ordering between asynchronous operations in flight. Each asynchronous operation is one synchronous step that takes the repository's answer as a parameter.
- The screen's own `filteredUsers` variable (lines 46, 54-59 and 64-66) is not modelled as state. Two writers set it: the screen's effect, with `DefaultFiltered`, and the search component's callback, with `VisibleUsers`. Which write lands last depends on the order in which effects run.
- `ListagemScreen.AdvancedSearch.OnValueChange` runs the filter once. In the app, when the text changed, the effect keyed on the search text runs `filterUsers()` a second time with the same inputs, so the screen receives the same list twice.
- `ListagemScreen.AdvancedSearch.OnCategoryClick` also runs the filter once. The effect at line 173 is keyed on `selectedCategories` as well as on `searchText`, so in the app a category click also runs `filterUsers()` a second time with the same inputs and the screen receives the same list twice.
- `ListagemScreen.AdvancedSearch.OnCategoryClick` reads the selection when the click is handled. In the app, a button's `isSelected` is computed during composition (line 231) and kept by its `onClick` closure. Two clicks on the same button before the next recomposition therefore both add, or both remove, the name. That recomposition timing is not modelled.
- `UserRepository` is an external collaborator and is not modelled. Its answers are method parameters.
- Navigation (`NavHostController`) is not modelled.
- `ViewModel.UserViewModel.AddUser` does not return the profile it hands to the repository. The request is the input itself.
- `ViewModel.UserViewModel.LoadUsers` does not model the exception or its log entry. A failure only ends the collection.
- `ViewModel.UserViewModel.AddUser`, `ViewModel.UserViewModel.UpdateUserCategories` and `ViewModel.UserViewModel.FetchUserCategories` assume the repository call returns. Only `loadUsers` catches exceptions (UserViewModel.kt lines 27-34). If `addUserAndGetId` (line 40), `updateUserCategories` (line 48) or `getUserById` (line 57) throws, the exception escapes the coroutine: `userId` and the primary categories keep their old values and `onComplete` is never called. The model has no such outcome, so `AddUser` and `UpdateUserCategories` always report a completion.
