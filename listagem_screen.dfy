/**
 The profile-list screen: which profiles are shown for the current search text, the selected
 categories and the current user's primary categories, how a category button toggles the
 selection, and how the primary categories are labelled.
 */
module ListagemScreen {
  import opened Model
  import opened Text
  import opened Lists

  // ---------------------------------------------------------------------------
  // Per-profile predicates

  /** The default view: the profile has an image and one of its category display names is
      among the current user's primary categories. */
  predicate DefaultMatch(u: User, userCategories: seq<string>)
  {
    IsNotBlank(u.imagemURL)
    && Intersect(DisplayNames(u.categories), SetOf(userCategories)) != {}
  }

  /** No category selected, or one of the profile's category internal names is selected. */
  predicate MatchesCategory(u: User, selectedCategories: set<string>)
  {
    selectedCategories == {} || Intersect(Names(u.categories), selectedCategories) != {}
  }

  /** No search text, or it occurs in the first or the last name, ignoring case. */
  predicate MatchesSearch(u: User, searchText: string)
  {
    searchText == []
    || ContainsIgnoreCase(u.nome, searchText)
    || ContainsIgnoreCase(u.sobrenome, searchText)
  }

  /** The advanced search: category, search text and image must all match. */
  predicate AdvancedMatch(u: User, searchText: string, selectedCategories: set<string>)
  {
    MatchesCategory(u, selectedCategories) && MatchesSearch(u, searchText) && IsNotBlank(u.imagemURL)
  }

  // ---------------------------------------------------------------------------
  // The filter

  /** The list the screen shows before any search: used both by the screen's own effect and by
      the search component when its text and selection are empty. It is a subsequence of `users`
      and holds no profile with a blank image URL. */
  function DefaultFiltered(users: seq<User>, userCategories: seq<string>): (r: seq<User>)
    ensures IsSubsequence(r, users)
    ensures forall i :: 0 <= i < |r| ==> IsNotBlank(r[i].imagemURL)
  {
    FilterIsSubsequence(users, u => DefaultMatch(u, userCategories));
    Filter(users, u => DefaultMatch(u, userCategories))
  }

  /** `filterUsers()` of the search component: the default view when neither text nor selection
      is set, the advanced search otherwise. Either way the result is `users` with some profiles
      deleted (nothing added, nothing reordered) and never shows a profile whose image URL is
      empty or whitespace only. */
  function VisibleUsers(users: seq<User>, userCategories: seq<string>,
                        searchText: string, selectedCategories: set<string>): (r: seq<User>)
    ensures IsSubsequence(r, users)
    ensures forall i :: 0 <= i < |r| ==> IsNotBlank(r[i].imagemURL)
  {
    if searchText == [] && selectedCategories == {} then DefaultFiltered(users, userCategories)
    else
      FilterIsSubsequence(users, u => AdvancedMatch(u, searchText, selectedCategories));
      Filter(users, u => AdvancedMatch(u, searchText, selectedCategories))
  }

  /** Whether `VisibleUsers` keeps `u`, the branch taken being decided by the criteria. */
  ghost predicate Shown(u: User, userCategories: seq<string>,
                        searchText: string, selectedCategories: set<string>)
  {
    if searchText == [] && selectedCategories == {} then DefaultMatch(u, userCategories)
    else AdvancedMatch(u, searchText, selectedCategories)
  }

  /** A shown profile appears exactly as often as in `users`, any other profile never:
      nothing is duplicated and nothing that qualifies is dropped. */
  lemma VisibleCounts(users: seq<User>, userCategories: seq<string>,
                      searchText: string, selectedCategories: set<string>, u: User)
    ensures multiset(VisibleUsers(users, userCategories, searchText, selectedCategories))[u]
            == if Shown(u, userCategories, searchText, selectedCategories) then multiset(users)[u] else 0
  {
    if searchText == [] && selectedCategories == {} {
      FilterCounts(users, u => DefaultMatch(u, userCategories), u);
    } else {
      FilterCounts(users, u => AdvancedMatch(u, searchText, selectedCategories), u);
    }
  }

  /** Membership in the result is exactly membership in `users` plus `Shown`. */
  lemma VisibleMembership(users: seq<User>, userCategories: seq<string>,
                          searchText: string, selectedCategories: set<string>, u: User)
    ensures u in VisibleUsers(users, userCategories, searchText, selectedCategories)
            <==> u in users && Shown(u, userCategories, searchText, selectedCategories)
  {
    VisibleCounts(users, userCategories, searchText, selectedCategories, u);
  }

  /** Some category of `u` has its display name among the primary categories, exactly when the
      intersection the default filter computes is not empty. */
  lemma DisplayNameIntersection(u: User, userCategories: seq<string>)
    ensures Intersect(DisplayNames(u.categories), SetOf(userCategories)) != {}
            <==> exists c :: c in u.categories && c.displayName in userCategories
  {
    var names := DisplayNames(u.categories);
    if c :| c in u.categories && c.displayName in userCategories {
      var i :| 0 <= i < |u.categories| && u.categories[i] == c;
      assert names[i] == c.displayName;
      assert c.displayName in Intersect(names, SetOf(userCategories));
    }
    if Intersect(names, SetOf(userCategories)) != {} {
      var d :| d in Intersect(names, SetOf(userCategories));
      var i :| 0 <= i < |names| && names[i] == d;
      assert u.categories[i] in u.categories;
    }
  }

  /** Some category of `u` has its internal name selected, exactly when the intersection the
      advanced filter computes is not empty. */
  lemma NameIntersection(u: User, selectedCategories: set<string>)
    ensures Intersect(Names(u.categories), selectedCategories) != {}
            <==> exists c :: c in u.categories && c.name in selectedCategories
  {
    var names := Names(u.categories);
    if c :| c in u.categories && c.name in selectedCategories {
      var i :| 0 <= i < |u.categories| && u.categories[i] == c;
      assert names[i] == c.name;
      assert c.name in Intersect(names, selectedCategories);
    }
    if Intersect(names, selectedCategories) != {} {
      var d :| d in Intersect(names, selectedCategories);
      var i :| 0 <= i < |names| && names[i] == d;
      assert u.categories[i] in u.categories;
    }
  }

  /** With no search text and no selection, a profile is shown exactly when it is in `users`,
      has an image and one of its categories' display names is a primary category. */
  lemma DefaultBranchExact(users: seq<User>, userCategories: seq<string>, u: User)
    ensures u in VisibleUsers(users, userCategories, [], {})
            <==> u in users && IsNotBlank(u.imagemURL)
                 && exists c :: c in u.categories && c.displayName in userCategories
  {
    VisibleMembership(users, userCategories, [], {}, u);
    DisplayNameIntersection(u, userCategories);
  }

  /** With a selection, every shown profile has a category whose internal name (not its display
      name) is selected. */
  lemma SelectionSound(users: seq<User>, userCategories: seq<string>,
                       searchText: string, selectedCategories: set<string>, u: User)
    requires selectedCategories != {}
    requires u in VisibleUsers(users, userCategories, searchText, selectedCategories)
    ensures exists c :: c in u.categories && c.name in selectedCategories
  {
    VisibleMembership(users, userCategories, searchText, selectedCategories, u);
    NameIntersection(u, selectedCategories);
  }

  /** With search text, every shown profile has the text, case-folded, as a substring of its
      case-folded first or last name. */
  lemma SearchSound(users: seq<User>, userCategories: seq<string>,
                    searchText: string, selectedCategories: set<string>, u: User)
    requires searchText != []
    requires u in VisibleUsers(users, userCategories, searchText, selectedCategories)
    ensures IsSubstring(FoldAll(searchText), FoldAll(u.nome))
            || IsSubstring(FoldAll(searchText), FoldAll(u.sobrenome))
  {
    VisibleMembership(users, userCategories, searchText, selectedCategories, u);
    ContainsIgnoreCaseIffFoldedSubstring(u.nome, searchText);
    ContainsIgnoreCaseIffFoldedSubstring(u.sobrenome, searchText);
  }

  /** In the advanced branch every profile of `users` with an image, a name match and a category
      match is shown, whatever the primary categories are. */
  lemma AdvancedComplete(users: seq<User>, userCategories: seq<string>,
                         searchText: string, selectedCategories: set<string>, u: User)
    requires searchText != [] || selectedCategories != {}
    requires u in users && IsNotBlank(u.imagemURL)
    requires selectedCategories == {} || exists c :: c in u.categories && c.name in selectedCategories
    requires searchText == []
             || IsSubstring(FoldAll(searchText), FoldAll(u.nome))
             || IsSubstring(FoldAll(searchText), FoldAll(u.sobrenome))
    ensures u in VisibleUsers(users, userCategories, searchText, selectedCategories)
  {
    VisibleMembership(users, userCategories, searchText, selectedCategories, u);
    NameIntersection(u, selectedCategories);
    ContainsIgnoreCaseIffFoldedSubstring(u.nome, searchText);
    ContainsIgnoreCaseIffFoldedSubstring(u.sobrenome, searchText);
  }

  /** In the advanced branch the primary categories have no influence on the result. */
  lemma AdvancedIgnoresPrimaryCategories(users: seq<User>, userCategories1: seq<string>,
                                         userCategories2: seq<string>,
                                         searchText: string, selectedCategories: set<string>)
    requires searchText != [] || selectedCategories != {}
    ensures VisibleUsers(users, userCategories1, searchText, selectedCategories)
            == VisibleUsers(users, userCategories2, searchText, selectedCategories)
  {
  }

  /** Filtering the shown list again with the same inputs gives the same list. */
  lemma VisibleIdempotent(users: seq<User>, userCategories: seq<string>,
                          searchText: string, selectedCategories: set<string>)
    ensures VisibleUsers(VisibleUsers(users, userCategories, searchText, selectedCategories),
                         userCategories, searchText, selectedCategories)
            == VisibleUsers(users, userCategories, searchText, selectedCategories)
  {
    if searchText == [] && selectedCategories == {} {
      FilterIdempotent(users, u => DefaultMatch(u, userCategories));
    } else {
      FilterIdempotent(users, u => AdvancedMatch(u, searchText, selectedCategories));
    }
  }

  /** Two profiles in the same primary category: by default only the one with an image is shown. */
  lemma DefaultScenario()
    ensures var a := Category("A", "#A");
            var ana := User("Ana", "Silva", "", "x", [a]);
            var bea := User("Bea", "Lima", "", "", [a]);
            VisibleUsers([ana, bea], ["#A"], [], {}) == [ana]
  {
    var a := Category("A", "#A");
    var ana := User("Ana", "Silva", "", "x", [a]);
    var bea := User("Bea", "Lima", "", "", [a]);
    assert !IsWhitespace('x') && "x"[0] == 'x';
    assert DisplayNames(ana.categories)[0] == "#A" && "#A" in ["#A"];
    assert "#A" in Intersect(DisplayNames(ana.categories), SetOf(["#A"]));
    assert DefaultMatch(ana, ["#A"]) && !DefaultMatch(bea, ["#A"]);
    assert [ana, bea][1..] == [bea];
  }

  /** Searching "an": "Ana" matches ignoring case, "Bea Lima" does not, whatever the images. */
  lemma SearchScenario()
    ensures var a := Category("A", "#A");
            var ana := User("Ana", "Silva", "", "x", [a]);
            var bea := User("Bea", "Lima", "", "y", [a]);
            VisibleUsers([ana, bea], ["#A"], "an", {}) == [ana]
  {
    var a := Category("A", "#A");
    var ana := User("Ana", "Silva", "", "x", [a]);
    var bea := User("Bea", "Lima", "", "y", [a]);
    assert !IsWhitespace('x') && "x"[0] == 'x';
    assert RegionMatchesIgnoreCase("Ana", 0, "an");
    assert !ContainsIgnoreCase("Bea", "an") by {
      forall at | 0 <= at <= 1 ensures !RegionMatchesIgnoreCase("Bea", at, "an") {
        if at == 0 {
          assert !CharEqualsIgnoreCase("Bea"[at + 0], "an"[0]);
        } else {
          assert !CharEqualsIgnoreCase("Bea"[at + 1], "an"[1]);
        }
      }
    }
    assert !ContainsIgnoreCase("Lima", "an") by {
      forall at | 0 <= at <= 2 ensures !RegionMatchesIgnoreCase("Lima", at, "an") {
        assert !CharEqualsIgnoreCase("Lima"[at + 1], "an"[1]);
      }
    }
    assert AdvancedMatch(ana, "an", {}) && !AdvancedMatch(bea, "an", {});
    assert [ana, bea][1..] == [bea];
  }

  /** Selecting a category's display name instead of its internal name matches nothing. */
  lemma SelectionUsesInternalName()
    ensures var tech := Category("TECNOLOGIA", "#Tecnologia");
            var ana := User("Ana", "Silva", "", "x", [tech]);
            VisibleUsers([ana], [], [], {"#Tecnologia"}) == []
            && VisibleUsers([ana], [], [], {"TECNOLOGIA"}) == [ana]
  {
    var tech := Category("TECNOLOGIA", "#Tecnologia");
    var ana := User("Ana", "Silva", "", "x", [tech]);
    assert !IsWhitespace('x') && "x"[0] == 'x';
    assert Names(ana.categories) == ["TECNOLOGIA"];
    assert "TECNOLOGIA" != "#Tecnologia";
    assert Intersect(Names(ana.categories), {"#Tecnologia"}) == {};
    assert "TECNOLOGIA" in Intersect(Names(ana.categories), {"TECNOLOGIA"});
  }

  // ---------------------------------------------------------------------------
  // Category buttons

  /** A category button's click: remove the internal name if it is selected, add it otherwise. */
  function Toggle(selectedCategories: set<string>, name: string): (r: set<string>)
    ensures name in r <==> name !in selectedCategories
    ensures forall n :: n != name ==> (n in r <==> n in selectedCategories)
  {
    if name in selectedCategories then selectedCategories - {name} else selectedCategories + {name}
  }

  /** Clicking the same category twice restores the selection. */
  lemma ToggleTwice(selectedCategories: set<string>, name: string)
    ensures Toggle(Toggle(selectedCategories, name), name) == selectedCategories
  {
  }

  // ---------------------------------------------------------------------------
  // Primary-category labels

  /** One primary category as shown: a `#` followed by the category with every `#` removed (the
      other characters kept in order) and only the whitespace around it dropped, so that the
      text after the `#` neither starts nor ends with whitespace. */
  function TopicLabel(category: string): (text: string)
    ensures |text| >= 1 && text[0] == '#'
    ensures var kept := Filter(category, x => x != '#');
            exists i, j :: TrimmedAt(text[1..], kept, i, j)
    ensures var t := text[1..];
            t == [] || (!IsWhitespace(t[0]) && !IsWhitespace(t[|t| - 1]))
  {
    var kept := RemoveChar(category, '#');
    var t := Trim(kept);
    assert ("#" + t)[1..] == t;
    assert kept == Filter(category, x => x != '#');
    assert exists i, j :: TrimmedAt(("#" + t)[1..], kept, i, j) by {
      var i, j :| TrimmedAt(t, kept, i, j);
      assert TrimmedAt(("#" + t)[1..], kept, i, j);
    }
    "#" + t
  }

  /** A label starts with its only `#`, and the text after it neither starts nor ends with
      whitespace. */
  lemma TopicLabelShape(category: string)
    ensures |TopicLabel(category)| >= 1 && TopicLabel(category)[0] == '#'
    ensures '#' !in TopicLabel(category)[1..]
    ensures multiset(TopicLabel(category))['#'] == 1
    ensures var t := TopicLabel(category)[1..];
            t == [] || (!IsWhitespace(t[0]) && !IsWhitespace(t[|t| - 1]))
  {
    var text := TopicLabel(category);
    var t := Trim(RemoveChar(category, '#'));
    assert text == ['#'] + t && text[1..] == t;
    assert '#' !in t;
    assert multiset(text) == multiset{'#'} + multiset(t);
  }

  /** A category stored with a marker and a space on each side, such as " #Tecnologia ", is shown
      as the marker followed by the bare word. */
  lemma TopicLabelPadded(word: string)
    requires word != [] && '#' !in word && !IsWhitespace(word[0]) && !IsWhitespace(word[|word| - 1])
    ensures TopicLabel(" #" + word + " ") == "#" + word
  {
    PaddedMarkerRemoved(word);
    PaddedTrim(word);
  }

  /** Removing the marker from " #word " leaves the word with its two spaces. */
  lemma PaddedMarkerRemoved(word: string)
    requires '#' !in word
    ensures RemoveChar(" #" + word + " ", '#') == " " + word + " "
  {
    PaddedShape(word);
    var tail := word + " ";
    RemoveCharCons(' ', ['#'] + tail, '#');
    RemoveCharCons('#', tail, '#');
    RemoveCharAbsent(tail, '#');
  }

  lemma PaddedShape(word: string)
    requires '#' !in word
    ensures '#' !in word + " "
    ensures " #" + word + " " == [' '] + (['#'] + (word + " "))
    ensures " " + word + " " == [' '] + (word + " ")
  {
  }

  /** One space on each side of a word that neither starts nor ends with whitespace is trimmed. */
  lemma PaddedTrim(word: string)
    requires word != [] && !IsWhitespace(word[0]) && !IsWhitespace(word[|word| - 1])
    ensures Trim(" " + word + " ") == word
  {
    var padded := " " + word + " ";
    assert padded[0] == ' ' && padded[1..] == word + " ";
    assert TrimStart(padded) == TrimStart(word + " ");
    assert (word + " ")[0] == word[0];
    assert TrimStart(word + " ") == word + " ";
    assert (word + " ")[..|word|] == word;
    assert TrimEnd(word + " ") == TrimEnd(word);
  }

  /** Repeated leading markers, as in "##Design", collapse into one. */
  lemma TopicLabelRepeatedMarker(word: string)
    requires word != [] && '#' !in word && !IsWhitespace(word[0]) && !IsWhitespace(word[|word| - 1])
    ensures TopicLabel("##" + word) == "#" + word
  {
    RepeatedMarkerShape(word);
    RemoveCharCons('#', ['#'] + word, '#');
    RemoveCharCons('#', word, '#');
    RemoveCharAbsent(word, '#');
    TrimKeepsTrimmed(word);
  }

  lemma RepeatedMarkerShape(word: string)
    ensures "##" + word == ['#'] + (['#'] + word)
  {
  }

  /** Labelling a label gives the label back. */
  lemma TopicLabelIdempotent(category: string)
    ensures TopicLabel(TopicLabel(category)) == TopicLabel(category)
  {
    var text := TopicLabel(category);
    var t := Trim(RemoveChar(category, '#'));
    TopicLabelShape(category);
    assert text == ['#'] + t && '#' !in t;
    RemoveCharAbsent(t, '#');
    assert RemoveChar(text, '#') == t;
    TrimKeepsTrimmed(t);
  }

  /** The label of every primary category, in order. */
  function Labels(userCategories: seq<string>): (r: seq<string>)
    ensures |r| == |userCategories|
    ensures forall i :: 0 <= i < |r| ==> r[i] == TopicLabel(userCategories[i])
  {
    seq(|userCategories|, i requires 0 <= i < |userCategories| => TopicLabel(userCategories[i]))
  }

  /** The primary-categories line: shown only when there are primary categories, and then the
      labels joined by ", ". */
  function PrimaryTopicsText(userCategories: seq<string>): (r: Option<string>)
    ensures r.Some? <==> userCategories != []
    ensures r.Some? ==> |r.value| > 0 && r.value[0] == '#'
  {
    if userCategories == [] then None
    else
      var labels := Labels(userCategories);
      TopicLabelShape(userCategories[0]);
      JoinToStringStart(labels, ", ");
      Some(JoinToString(labels, ", "))
  }

  /** The line carries exactly one `#` per primary category. */
  lemma PrimaryTopicsMarkers(userCategories: seq<string>)
    requires userCategories != []
    ensures multiset(PrimaryTopicsText(userCategories).value)['#'] == |userCategories|
  {
    var labels := Labels(userCategories);
    forall i | 0 <= i < |labels| ensures multiset(labels[i])['#'] == 1 {
      TopicLabelShape(userCategories[i]);
    }
    assert multiset(", ")['#'] == 0;
    JoinToStringCount(labels, ", ", '#');
  }

  /** With one primary category the line is its label alone. */
  lemma PrimaryTopicsOne(category: string)
    ensures PrimaryTopicsText([category]) == Some(TopicLabel(category))
  {
    LabelsOne(category);
  }

  lemma LabelsOne(category: string)
    ensures Labels([category]) == [TopicLabel(category)]
  {
    var categories := [category];
    assert categories[0] == category;
    var labels := Labels(categories);
    assert |labels| == 1 && labels[0] == TopicLabel(categories[0]);
  }

  /** One more primary category adds ", " and its label to the end of the line, so the line is
      the labels of the primary categories in order, separated by ", ". */
  lemma PrimaryTopicsAppend(userCategories: seq<string>, category: string)
    requires userCategories != []
    ensures PrimaryTopicsText(userCategories + [category]).Some?
    ensures PrimaryTopicsText(userCategories + [category]).value
            == PrimaryTopicsText(userCategories).value + ", " + TopicLabel(category)
  {
    assert Labels(userCategories + [category]) == Labels(userCategories) + [TopicLabel(category)];
    JoinSnoc(Labels(userCategories), TopicLabel(category), ", ");
  }

  // ---------------------------------------------------------------------------
  // The search component's remembered state

  /** The search component: the inputs it is composed with, its remembered search text and
      selection, and the list it last computed and handed to the screen. */
  class AdvancedSearch {
    var users: seq<User>
    var userCategories: seq<string>
    var searchText: string
    var selectedCategories: set<string>
    var filteredUsers: seq<User>

    /** The remembered list is the filter of the current inputs. */
    ghost predicate Current()
      reads this
    {
      filteredUsers == VisibleUsers(users, userCategories, searchText, selectedCategories)
    }

    /** First composition with empty text and selection, followed by the first run of the
        effect, which filters. */
    constructor (users: seq<User>, userCategories: seq<string>)
      ensures this.users == users && this.userCategories == userCategories
      ensures searchText == [] && selectedCategories == {}
      ensures filteredUsers == DefaultFiltered(users, userCategories)
      ensures Current()
    {
      this.users := users;
      this.userCategories := userCategories;
      searchText := [];
      selectedCategories := {};
      filteredUsers := DefaultFiltered(users, userCategories);
    }

    /** `filterUsers()`: recompute the list and hand it to the screen. Also what the search
        icon's click does. */
    method FilterUsers() returns (published: seq<User>)
      modifies this`filteredUsers
      ensures Current()
      ensures published == filteredUsers
    {
      filteredUsers := VisibleUsers(users, userCategories, searchText, selectedCategories);
      published := filteredUsers;
    }

    /** The text field's `onValueChange`: store the new text and filter. */
    method OnValueChange(newValue: string) returns (published: seq<User>)
      modifies this`searchText, this`filteredUsers
      ensures searchText == newValue
      ensures Current()
      ensures published == filteredUsers
    {
      searchText := newValue;
      published := FilterUsers();
    }

    /** A category button's `onClick`: toggle its internal name and filter. */
    method OnCategoryClick(name: string) returns (published: seq<User>)
      modifies this`selectedCategories, this`filteredUsers
      ensures selectedCategories == Toggle(old(selectedCategories), name)
      ensures Current()
      ensures published == filteredUsers
    {
      var isSelected := name in selectedCategories;
      if isSelected {
        selectedCategories := selectedCategories - {name};
      } else {
        selectedCategories := selectedCategories + {name};
      }
      published := FilterUsers();
    }

    /** Recomposition with new inputs. The effect is keyed on the profile list, the selection and
        the text only, so it filters again when the profile list changed and not when only the
        primary categories did; in that case the remembered list is left as it was. */
    method Recompose(users: seq<User>, userCategories: seq<string>) returns (published: Option<seq<User>>)
      modifies this`users, this`userCategories, this`filteredUsers
      ensures this.users == users && this.userCategories == userCategories
      ensures users != old(this.users) ==> Current() && published == Some(filteredUsers)
      ensures users == old(this.users) ==> filteredUsers == old(filteredUsers) && published == None
    {
      var changed := users != this.users;
      this.users := users;
      this.userCategories := userCategories;
      if changed {
        var filtered := FilterUsers();
        published := Some(filtered);
      } else {
        published := None;
      }
    }
  }
}
