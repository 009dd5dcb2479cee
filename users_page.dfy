/**
  * The "Users" page: the student list, its search and drop-down filters,
  * and the suspend / activate / delete actions of each row's menu.
  */
module UsersPage {
  import opened Optional
  import opened Strings
  import opened Seqs

  datatype UserStatus = Active | Inactive | Suspended

  /** A student row; `lastActive` and `avatar` are display text. */
  datatype User = User(
    id: int,
    name: string,
    email: string,
    school: string,
    level: string,
    examBoard: string,
    subjects: seq<string>,
    lastActive: string,
    status: UserStatus,
    avatar: string)

  function InitialUsers(): seq<User>
  {
    [ User(1, "Tendai Mukamuri", "tendai.m@email.com", "Harare High School", "A-Level", "ZIMSEC",
        ["Mathematics", "Physics", "Chemistry"], "2024-01-15", Active, "/user1.jpg"),
      User(2, "Chipo Nyahunzvi", "chipo.n@email.com", "St. Johns College", "O-Level", "Cambridge",
        ["English", "Mathematics", "Biology"], "2024-01-14", Active, "/user2.jpg"),
      User(3, "Tarisai Chimombe", "tarisai.c@email.com", "Prince Edward School", "A-Level", "Cambridge",
        ["Mathematics", "Further Mathematics", "Physics"], "2024-01-10", Inactive, "/user3.jpg"),
      User(4, "Rutendo Mashoko", "rutendo.m@email.com", "Dominican Convent High School", "O-Level", "ZIMSEC",
        ["English", "History", "Geography"], "2024-01-15", Active, "/user4.jpg") ]
  }

  predicate UserMatches(u: User, search: string, selectedLevel: string, selectedExamBoard: string)
  {
    (MatchesSearch(u.name, search) || MatchesSearch(u.email, search) || MatchesSearch(u.school, search)) &&
    Selects(selectedLevel, u.level) && Selects(selectedExamBoard, u.examBoard)
  }

  /** `filteredUsers` */
  function FilteredUsers(users: seq<User>, search: string, selectedLevel: string, selectedExamBoard: string): (r: seq<User>)
    ensures forall u :: u in r <==>
      u in users &&
      (MatchesSearch(u.name, search) || MatchesSearch(u.email, search) || MatchesSearch(u.school, search)) &&
      (selectedLevel == "all" || u.level == selectedLevel) &&
      (selectedExamBoard == "all" || u.examBoard == selectedExamBoard)
  {
    Filter(users, (u: User) => UserMatches(u, search, selectedLevel, selectedExamBoard))
  }

  /** With an empty search and both drop-downs on `'all'`, every user shows, in order. */
  lemma FilteredUsersUnfiltered(users: seq<User>)
    ensures FilteredUsers(users, "", "all", "all") == users
  {
    forall u | u in users ensures UserMatches(u, "", "all", "all") {
      EmptySearchMatches(u.name);
    }
    FilterKeepsAll(users, (u: User) => UserMatches(u, "", "all", "all"));
  }

  /** The body of the `map` callback: the user after `action`, or `null` when deleted. */
  function UserAfter(u: User, userId: int, action: string): Option<User>
  {
    if u.id != userId then Some(u)
    else if action == "suspend" then Some(u.(status := Suspended))
    else if action == "activate" then Some(u.(status := Active))
    else if action == "delete" then None
    else Some(u)
  }

  /** `handleUserAction`'s new list: `users.map(...).filter(Boolean)`. */
  function ApplyUserAction(users: seq<User>, userId: int, action: string): (r: seq<User>)
    ensures |r| <= |users|
  {
    if users == [] then []
    else
      var rest := ApplyUserAction(users[1..], userId, action);
      match UserAfter(users[0], userId, action)
      case None => rest
      case Some(u) => [u] + rest
  }

  /**
    * `'suspend'` and `'activate'` keep every row in place, set the status of
    * the rows with that id and change nothing else.
    */
  lemma {:induction false} StatusActionSpec(users: seq<User>, userId: int, action: string, status: UserStatus)
    requires (action == "suspend" && status == Suspended) || (action == "activate" && status == Active)
    ensures var r := ApplyUserAction(users, userId, action);
      |r| == |users| &&
      forall i :: 0 <= i < |users| ==>
        r[i] == if users[i].id == userId then users[i].(status := status) else users[i]
  {
    if users != [] {
      StatusActionSpec(users[1..], userId, action, status);
    }
  }

  /** `'delete'` removes every row with that id and keeps the others in their order. */
  lemma {:induction false} DeleteActionSpec(users: seq<User>, userId: int)
    ensures ApplyUserAction(users, userId, "delete") == Filter(users, (u: User) => u.id != userId)
  {
    if users != [] {
      DeleteActionSpec(users[1..], userId);
    }
  }

  /** Any other action, or an id no row has, leaves the list as it was. */
  lemma {:induction false} ActionNoOp(users: seq<User>, userId: int, action: string)
    requires action !in {"suspend", "activate", "delete"} || forall u :: u in users ==> u.id != userId
    ensures ApplyUserAction(users, userId, action) == users
  {
    if users != [] {
      ActionNoOp(users[1..], userId, action);
    }
  }

  /** The row menu offers "Suspend User" for active users only. */
  predicate OffersSuspend(u: User)
  {
    u.status == Active
  }

  /** The row menu offers "Activate User" for suspended users only. */
  predicate OffersActivate(u: User)
  {
    u.status == Suspended
  }

  /**
    * No row offers both; an inactive user is offered neither; and each
    * offered action leads to a status that offers the other one.
    */
  lemma MenuSpec(u: User)
    ensures !(OffersSuspend(u) && OffersActivate(u))
    ensures u.status == Inactive ==> !OffersSuspend(u) && !OffersActivate(u)
    ensures OffersSuspend(u) ==> OffersActivate(UserAfter(u, u.id, "suspend").value)
    ensures OffersActivate(u) ==> OffersSuspend(UserAfter(u, u.id, "activate").value)
  {
  }

  /** Suspending then activating a user who was active gives the list back. */
  lemma SuspendThenActivate(users: seq<User>, userId: int)
    requires forall i :: 0 <= i < |users| && users[i].id == userId ==> users[i].status == Active
    ensures ApplyUserAction(ApplyUserAction(users, userId, "suspend"), userId, "activate") == users
  {
    var mid := ApplyUserAction(users, userId, "suspend");
    StatusActionSpec(users, userId, "suspend", Suspended);
    StatusActionSpec(mid, userId, "activate", Active);
  }

  class Page {
    var users: seq<User>

    constructor()
      ensures users == InitialUsers()
    {
      users := InitialUsers();
    }

    /** `handleUserAction(userId, action)` */
    method HandleUserAction(userId: int, action: string)
      modifies this
      ensures users == ApplyUserAction(old(users), userId, action)
    {
      users := ApplyUserAction(users, userId, action);
    }
  }
}
