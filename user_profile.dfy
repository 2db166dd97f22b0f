/** The user-profile menu: a mocked session record under `user_data` and a
    counter of the watch-later list kept fresh by storage changes, in-page
    events and broadcast messages. */
module Profile {
  import opened Types
  import opened Storage
  import opened WatchLater

  const DefaultUser: UserData := UserData("Joana", "joana123@blabla54")

  /** Storage after the mount-time bootstrap: the default user is written
      only when `user_data` is absent. */
  function Bootstrapped(items: map<string, Value>): (r: map<string, Value>)
    ensures r.Keys == items.Keys + {UserKey}
    ensures UserKey in items ==> r[UserKey] == items[UserKey]
  {
    if UserKey in items then items else items[UserKey := Profile(DefaultUser)]
  }

  /** The bootstrap never overwrites a stored profile, always leaves one
      behind, touches no other key, and running it again changes nothing. */
  lemma BootstrapEffect(items: map<string, Value>)
    ensures UserKey in Bootstrapped(items)
    ensures UserKey in items ==> Bootstrapped(items) == items
    ensures UserKey !in items ==> Bootstrapped(items)[UserKey] == Profile(DefaultUser)
    ensures forall k :: k != UserKey ==> (k in Bootstrapped(items) <==> k in items)
    ensures forall k :: k != UserKey && k in items ==> Bootstrapped(items)[k] == items[k]
    ensures Bootstrapped(Bootstrapped(items)) == Bootstrapped(items)
  {
  }

  /** The count read on mount: the `length` of the stored value (of `[]`
      when absent), which is undefined (None) for anything but an array. */
  function MountCount(saved: Option<Value>): (r: Option<int>)
    ensures r.Some? <==> saved.None? || saved.value.List?
    ensures r.Some? ==> r.value >= 0
  {
    match saved
    case None => Some(0)
    case Some(List(ms)) => Some(|ms|)
    case Some(_) => None
  }

  /** `updateCountFromStorage`: the stored list's length when it is an
      array, 0 otherwise. */
  function Recount(saved: Option<Value>): nat {
    if saved.Some? && saved.value.List? then |saved.value.movies| else 0
  }

  /** The mount count agrees with a recount exactly when the stored value
      is an array or absent; otherwise it is undefined where a recount
      gives 0. */
  lemma MountCountVersusRecount(saved: Option<Value>)
    ensures (saved.None? || saved.value.List?) ==> MountCount(saved) == Some(Recount(saved))
    ensures !(saved.None? || saved.value.List?) ==> MountCount(saved).None? && Recount(saved) == 0
  {
  }

  /** The counter after a `watchlater:update` event (`ev` None when the
      listener is called without one): a numeric `detail.count` is taken
      as is, anything else triggers a recount. */
  function AfterEvent(items: map<string, Value>, ev: Option<UpdateEvent>): (r: Option<int>)
    ensures r.Some?
    ensures !(ev.Some? && ev.value.count.Some?) ==> r.value >= 0
  {
    if ev.Some? && ev.value.count.Some? then ev.value.count
    else Some(Recount(Get(items, WatchLaterKey)))
  }

  /** The counter after a broadcast message (`msg` None when it carries no
      data): only an `update` message changes it, to its numeric count or,
      failing that, to a recount. */
  function AfterMessage(count: Option<int>, items: map<string, Value>, msg: Option<Message>): (r: Option<int>)
    ensures count.Some? ==> r.Some?
    ensures msg.Some? && msg.value.kind == Some("update") ==> r.Some?
  {
    if msg.Some? && msg.value.kind == Some("update") then
      if msg.value.count.Some? then msg.value.count
      else Some(Recount(Get(items, WatchLaterKey)))
    else count
  }

  /** Which event or message sets the counter to what. */
  lemma CounterRules(count: Option<int>, items: map<string, Value>, ev: Option<UpdateEvent>, msg: Option<Message>)
    ensures ev.Some? && ev.value.count.Some? ==> AfterEvent(items, ev) == ev.value.count
    ensures !(ev.Some? && ev.value.count.Some?) ==> AfterEvent(items, ev) == Some(Recount(Get(items, WatchLaterKey)))
    ensures !(msg.Some? && msg.value.kind == Some("update")) ==> AfterMessage(count, items, msg) == count
    ensures msg.Some? && msg.value.kind == Some("update") && msg.value.count.Some? ==>
      AfterMessage(count, items, msg) == msg.value.count
    ensures msg.Some? && msg.value.kind == Some("update") && msg.value.count.None? ==>
      AfterMessage(count, items, msg) == Some(Recount(Get(items, WatchLaterKey)))
  {
  }

  /** After the watch-later page stores a list, every path by which the
      counter learns of it agrees on the list's length: the event, the
      broadcast message, the recount done when the event carries no count,
      and the recount done on a storage change. */
  lemma NotificationsAgree(items: map<string, Value>, kept: seq<Movie>, count: Option<int>)
    ensures var stored := items[WatchLaterKey := List(kept)];
      && AfterEvent(stored, Some(CountEvent(|kept|))) == Some(|kept|)
      && AfterEvent(stored, None) == Some(|kept|)
      && AfterMessage(count, stored, Some(CountMessage(|kept|))) == Some(|kept|)
      && Recount(Get(stored, WatchLaterKey)) == |kept|
  {
  }

  /** A prompt answer is truthy when it was not cancelled (None) and is
      not the empty string. */
  predicate Answered(answer: Option<string>) {
    answer.Some? && answer.value != ""
  }

  class UserProfile {
    var isOpen: bool
    var userData: Option<Value>
    var watchLaterCount: Option<int>
    const store: LocalStorage

    /** The displayed user is whatever `user_data` holds. */
    ghost predicate Valid()
      reads this, store
    {
      userData == Get(store.items, UserKey)
    }

    /** Mounting: closed menu, then the bootstrap effect, which writes the
        default user if none is stored, shows the stored user and reads the
        watch-later count. */
    constructor (store: LocalStorage)
      modifies store
      ensures this.store == store
      ensures store.items == Bootstrapped(old(store.items))
      ensures !isOpen
      ensures userData == Some(store.items[UserKey])
      ensures watchLaterCount == MountCount(Get(store.items, WatchLaterKey))
      ensures Valid()
    {
      this.store := store;
      isOpen := false;
      userData := None;
      watchLaterCount := Some(0);
      new;
      var existing := Get(store.items, UserKey);
      if existing.None? {
        store.SetItem(UserKey, Profile(DefaultUser));
      }
      var savedUser := Get(store.items, UserKey);
      if savedUser.Some? {
        userData := savedUser;
      }
      var watchLater := Get(store.items, WatchLaterKey);
      watchLaterCount := MountCount(watchLater);
    }

    /** `updateCountFromStorage`, also the `storage` event listener. */
    method UpdateCountFromStorage()
      modifies this`watchLaterCount
      ensures watchLaterCount == Some(Recount(Get(store.items, WatchLaterKey)))
    {
      var list := Get(store.items, WatchLaterKey);
      watchLaterCount := Some(Recount(list));
    }

    /** `handleCustomEvent` */
    method HandleCustomEvent(ev: Option<UpdateEvent>)
      modifies this`watchLaterCount
      ensures watchLaterCount == AfterEvent(store.items, ev)
    {
      if ev.Some? && ev.value.count.Some? {
        watchLaterCount := ev.value.count;
        return;
      }
      UpdateCountFromStorage();
    }

    /** The broadcast channel's `message` listener. */
    method HandleMessage(msg: Option<Message>)
      modifies this`watchLaterCount
      ensures watchLaterCount == AfterMessage(old(watchLaterCount), store.items, msg)
    {
      if msg.Some? && msg.value.kind == Some("update") {
        if msg.value.count.Some? {
          watchLaterCount := msg.value.count;
        } else {
          UpdateCountFromStorage();
        }
      }
    }

    /** `handleLogin`, with the two prompt answers as parameters. */
    method HandleLogin(name: Option<string>, email: Option<string>)
      requires Valid()
      modifies this`userData, store
      ensures !(Answered(name) && Answered(email)) ==>
        userData == old(userData) && store.items == old(store.items)
      ensures Answered(name) && Answered(email) ==>
        && store.items == old(store.items)[UserKey := Profile(UserData(name.value, email.value))]
        && userData == Some(Profile(UserData(name.value, email.value)))
      ensures Valid()
    {
      if !Answered(name) {
        return;
      }
      if !Answered(email) {
        return;
      }
      var user := UserData(name.value, email.value);
      store.SetItem(UserKey, Profile(user));
      userData := Some(Profile(user));
    }

    /** `handleLogout`, with the confirmation answer as a parameter. */
    method HandleLogout(confirmed: bool)
      requires Valid()
      modifies this`userData, this`isOpen, store
      ensures !confirmed ==>
        userData == old(userData) && isOpen == old(isOpen) && store.items == old(store.items)
      ensures confirmed ==>
        && store.items == old(store.items) - {UserKey}
        && userData.None?
        && !isOpen
      ensures Valid()
    {
      if confirmed {
        store.RemoveItem(UserKey);
        userData := None;
        isOpen := false;
      }
    }

    /** The avatar button opens and closes the menu. */
    method ToggleMenu()
      modifies this`isOpen
      ensures isOpen == !old(isOpen)
    {
      isOpen := !isOpen;
    }

    /** The two navigation buttons close the menu before leaving. */
    method CloseMenu()
      modifies this`isOpen
      ensures !isOpen
    {
      isOpen := false;
    }
  }
}
