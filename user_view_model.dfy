/**
 The view model behind the profile screens: the profile list mirrored from the repository's
 subscription, the identifier of the current user once the repository has assigned one, and the
 display names of that user's categories. Each asynchronous call is modelled as one synchronous
 step that receives the repository's answer as a parameter: `LoadUsers` the delivered snapshots,
 `AddUser` the returned id. `UpdateUserCategories` and `FetchUserCategories` also return the
 request they send.
 */
module ViewModel {
  import opened Model

  /** What `updateUserCategories` asks the repository for: the user's id and the internal names
      of the new categories. */
  datatype CategoryUpdate = CategoryUpdate(id: string, names: seq<string>)

  class UserViewModel {
    var users: seq<User>
    var userId: Option<string>
    var userCategories: seq<string>

    /** A fresh view model: no profiles yet, no current user, no primary categories. */
    constructor ()
      ensures users == [] && userId == None && userCategories == []
    {
      users := [];
      userId := None;
      userCategories := [];
    }

    /** `loadUsers()`: the subscription's `collect`. `delivered` holds the snapshots that arrived
        before the stream ended or threw; each one replaces the profile list, and an error ends
        the collection leaving everything at its last value. */
    method LoadUsers(delivered: seq<seq<User>>)
      modifies this`users
      ensures users == if delivered == [] then old(users) else delivered[|delivered| - 1]
    {
      var i := 0;
      while i < |delivered|
        invariant 0 <= i <= |delivered|
        invariant users == if i == 0 then old(users) else delivered[i - 1]
      {
        users := delivered[i];
        i := i + 1;
      }
    }

    /** `addUser(user, onComplete)`: the id the repository returns for `user` becomes the current
        user's id, absent or not, and the completion reports whether there is one. */
    method AddUser(user: User, returnedId: Option<string>) returns (completed: bool)
      modifies this`userId
      ensures userId == returnedId
      ensures completed <==> userId.Some?
    {
      userId := returnedId;
      completed := userId.Some?;
    }

    /** `updateUserCategories(categories, onComplete)`: without a current user it reports failure
        and sends nothing; otherwise it sends the id with the categories' internal names in order
        and reports the repository's `answer` unchanged. */
    method UpdateUserCategories(categories: seq<Category>, answer: bool)
      returns (request: Option<CategoryUpdate>, completed: bool)
      ensures userId == None ==> request == None && !completed
      ensures userId.Some? ==> request.Some? && request.value.id == userId.value && completed == answer
      ensures request.Some? ==> |request.value.names| == |categories|
                                && forall i :: 0 <= i < |categories| ==>
                                     request.value.names[i] == categories[i].name
    {
      match userId {
        case None =>
          request, completed := None, false;
        case Some(id) =>
          request := Some(CategoryUpdate(id, Names(categories)));
          completed := answer;
      }
    }

    /** `fetchUserCategories()`: without a current user nothing is requested and nothing changes;
        otherwise the user is looked up by id, and if the repository finds it the primary
        categories become its categories' display names, in order. */
    method FetchUserCategories(fetched: Option<User>) returns (request: Option<string>)
      modifies this`userCategories
      ensures request == userId
      ensures userId == None || fetched == None ==> userCategories == old(userCategories)
      ensures userId.Some? && fetched.Some? ==>
                |userCategories| == |fetched.value.categories|
                && forall i :: 0 <= i < |userCategories| ==>
                     userCategories[i] == fetched.value.categories[i].displayName
    {
      request := userId;
      if userId.Some? {
        if fetched.Some? {
          userCategories := DisplayNames(fetched.value.categories);
        }
      }
    }
  }

  /** A category update attempted before any user was added fails without reaching the
      repository. */
  method UpdateBeforeAddFails(categories: seq<Category>, answer: bool)
    returns (request: Option<CategoryUpdate>, completed: bool)
    ensures request == None && !completed
  {
    var vm := new UserViewModel();
    request, completed := vm.UpdateUserCategories(categories, answer);
  }

  /** Once `addUser` has recorded an id, a category update is sent for exactly that id. */
  method UpdateAfterAddUsesNewId(user: User, id: string, categories: seq<Category>, answer: bool)
    returns (request: Option<CategoryUpdate>, completed: bool)
    ensures request == Some(CategoryUpdate(id, Names(categories)))
    ensures completed == answer
  {
    var vm := new UserViewModel();
    var added := vm.AddUser(user, Some(id));
    request, completed := vm.UpdateUserCategories(categories, answer);
    assert request.value.names == Names(categories);
  }

  /** An `addUser` whose repository returns no id clears an id recorded before it, so a later
      category update fails again. */
  method FailedAddClearsId(user: User, id: string, categories: seq<Category>, answer: bool)
    returns (firstAdd: bool, secondAdd: bool, request: Option<CategoryUpdate>, completed: bool)
    ensures firstAdd && !secondAdd
    ensures request == None && !completed
  {
    var vm := new UserViewModel();
    firstAdd := vm.AddUser(user, Some(id));
    secondAdd := vm.AddUser(user, None);
    request, completed := vm.UpdateUserCategories(categories, answer);
  }
}
