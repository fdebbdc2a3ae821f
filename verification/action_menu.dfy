/**
 * The action menu library: a dialog bound to a container element, its
 * table of click callbacks, its show/hide class changes, its click and
 * animationend handling, the registry of bound menus, and the markup a menu
 * descriptor builds.
 */
module ActionMenu {
  import opened Dom
  import opened JsText

  // ---------------------------------------------------------------------------
  // Callbacks and the callback table
  // ---------------------------------------------------------------------------

  /** A value handed in where a callback is expected. A function is known by its string form (its source text) and by its identity. */
  datatype JsValue = Function(source: string, identity: nat) | NotAFunction

  /**
   * An object used as a dictionary: each callback is stored under its string
   * form, and the keys enumerate in insertion order (as `Object.keys` lists
   * string keys that are not array indices).
   */
  datatype CallbackTable = CallbackTable(keys: seq<string>, entries: map<string, JsValue>)
  {
    /** Keys listed once each, exactly the stored keys, each holding a function whose string form is that key. */
    ghost predicate Valid()
    {
      Distinct(keys) &&
      (forall k :: k in entries <==> k in keys) &&
      (forall k :: k in entries ==> entries[k].Function? && entries[k].source == k)
    }
  }

  /** The table a new menu starts with. */
  const EmptyTable: CallbackTable := CallbackTable([], map[])

  /** No key occurs twice. */
  ghost predicate Distinct(keys: seq<string>)
  {
    forall i, j :: 0 <= i < j < |keys| ==> keys[i] != keys[j]
  }

  /** `table[String(f)] = f`: a new key goes last, a present key keeps its place and takes the new callback. */
  function Put(t: CallbackTable, f: JsValue): (r: CallbackTable)
    requires t.Valid() && f.Function?
    ensures r.Valid()
    ensures f.source in r.entries && r.entries[f.source] == f
    ensures forall k :: k != f.source ==> (k in r.entries <==> k in t.entries)
    ensures forall k :: k != f.source && k in t.entries ==> r.entries[k] == t.entries[k]
    ensures |r.keys| == |t.keys| + (if f.source in t.entries then 0 else 1)
    ensures forall i :: 0 <= i < |t.keys| ==> r.keys[i] == t.keys[i]
  {
    if f.source in t.entries then CallbackTable(t.keys, t.entries[f.source := f])
    else CallbackTable(t.keys + [f.source], t.entries[f.source := f])
  }

  /** `keys` with `k` taken out, the rest in order. */
  function Without(keys: seq<string>, k: string): (r: seq<string>)
    ensures forall x :: x in r <==> x in keys && x != k
    ensures Distinct(keys) ==> Distinct(r)
    ensures |r| <= |keys|
  {
    if keys == [] then []
    else if keys[0] == k then Without(keys[1..], k)
    else
      var rest := Without(keys[1..], k);
      assert Distinct(keys) ==> keys[0] !in rest;
      [keys[0]] + rest
  }

  /** `delete table[key]`: that key goes, every other entry stays in its order. */
  function Delete(t: CallbackTable, key: string): (r: CallbackTable)
    requires t.Valid()
    ensures r.Valid()
    ensures key !in r.entries
    ensures forall k :: k != key ==> (k in r.entries <==> k in t.entries)
    ensures forall k :: k != key && k in t.entries ==> r.entries[k] == t.entries[k]
    ensures key !in t.entries ==> r.keys == t.keys
    ensures key in t.entries ==> exists i :: 0 <= i < |t.keys| && t.keys[i] == key && r.keys == t.keys[..i] + t.keys[i + 1..]
  {
    var r := CallbackTable(Without(t.keys, key), t.entries - {key});
    if key in t.entries then
      WithoutRemovesOne(t.keys, key);
      r
    else
      WithoutAbsent(t.keys, key);
      r
  }

  /** Taking a key out of distinct keys cuts it from its one position; the keys before and after keep their order. */
  lemma WithoutRemovesOne(keys: seq<string>, k: string)
    requires Distinct(keys) && k in keys
    ensures exists i :: 0 <= i < |keys| && keys[i] == k && Without(keys, k) == keys[..i] + keys[i + 1..]
  {
    var i := RemovedAt(keys, k);
  }

  /** The position `Without` cuts a key of distinct keys from. */
  lemma {:induction false} RemovedAt(keys: seq<string>, k: string) returns (i: nat)
    requires Distinct(keys) && k in keys
    ensures i < |keys| && keys[i] == k && Without(keys, k) == keys[..i] + keys[i + 1..]
  {
    if keys[0] == k {
      assert k !in keys[1..];
      WithoutAbsent(keys[1..], k);
      i := 0;
    } else {
      var tail := keys[1..];
      assert Distinct(tail);
      var j := RemovedAt(tail, k);
      i := j + 1;
      assert keys[..i] == [keys[0]] + tail[..j];
      assert keys[i + 1..] == tail[j + 1..];
    }
  }

  /** Taking out a key that is not there changes nothing. */
  lemma {:induction false} WithoutAbsent(keys: seq<string>, k: string)
    requires k !in keys
    ensures Without(keys, k) == keys
  {
    if keys != [] {
      WithoutAbsent(keys[1..], k);
    }
  }

  /** Taking out the key just appended gives back the original keys. */
  lemma {:induction false} WithoutAppended(keys: seq<string>, k: string)
    requires k !in keys
    ensures Without(keys + [k], k) == keys
  {
    if keys == [] {
    } else {
      assert (keys + [k])[1..] == keys[1..] + [k];
      WithoutAppended(keys[1..], k);
    }
  }

  /** Adding the same callback again leaves the table as one addition did: a single entry per key. */
  lemma PutTwice(t: CallbackTable, f: JsValue)
    requires t.Valid() && f.Function?
    ensures Put(Put(t, f), f) == Put(t, f)
  {
  }

  /** Removing a callback just added to a table that lacked its key restores the table. */
  lemma PutThenDelete(t: CallbackTable, f: JsValue)
    requires t.Valid() && f.Function? && f.source !in t.entries
    ensures Delete(Put(t, f), f.source) == t
  {
    WithoutAppended(t.keys, f.source);
    assert t.entries[f.source := f] - {f.source} == t.entries;
  }

  /** Removing a key the table lacks leaves it as it was. */
  lemma DeleteAbsent(t: CallbackTable, key: string)
    requires t.Valid() && key !in t.entries
    ensures Delete(t, key) == t
  {
    WithoutAbsent(t.keys, key);
    assert t.entries - {key} == t.entries;
  }

  // ---------------------------------------------------------------------------
  // The window: timers, window events, synchronous calls
  // ---------------------------------------------------------------------------

  /** A `setTimeout` task: hide a menu, or call a registered callback with the click event. */
  datatype Task = HideMenu(menu: Action) | Invoke(callback: JsValue)

  /** The window as the menus use it. */
  class Window {
    /** tasks handed to `setTimeout`, in order */
    var timeouts: seq<Task>
    /** events dispatched on the window, in order */
    var events: seq<DomEvent>
    /** handlers called synchronously (a menu's `onclick`), in order */
    var calls: seq<JsValue>
  }

  /** The custom event dispatched when the hide animation ends; it does not bubble. */
  const HiddenEvent: DomEvent := DomEvent("actionmenu-hidden", false)

  /** The custom event dispatched when any other animation ends; it does not bubble. */
  const ShowedEvent: DomEvent := DomEvent("actionmenu-showed", false)

  /** One task per key, in key order, each calling the callback stored under that key. */
  function Scheduled(keys: seq<string>, entries: map<string, JsValue>): (r: seq<Task>)
    requires forall k :: k in keys ==> k in entries
    ensures |r| == |keys|
  {
    if keys == [] then []
    else Scheduled(keys[..|keys| - 1], entries) + [Invoke(entries[keys[|keys| - 1]])]
  }

  /** Every registered callback is scheduled exactly once, and nothing else is scheduled. */
  lemma ScheduledOnce(t: CallbackTable)
    requires t.Valid()
    ensures forall k :: k in t.entries ==> multiset(Scheduled(t.keys, t.entries))[Invoke(t.entries[k])] == 1
    ensures forall task :: task in Scheduled(t.keys, t.entries) ==> task.Invoke? && task.callback in t.entries.Values
  {
    forall k | k in t.entries
      ensures multiset(Scheduled(t.keys, t.entries))[Invoke(t.entries[k])] == 1
    {
      ScheduledCount(t, t.keys, k);
    }
    ScheduledFromTable(t, t.keys);
  }

  /** Over a prefix of the keys, a stored callback is scheduled once if its key is in the prefix and never otherwise. */
  lemma {:induction false} ScheduledCount(t: CallbackTable, keys: seq<string>, k: string)
    requires t.Valid() && keys <= t.keys && k in t.entries
    ensures multiset(Scheduled(keys, t.entries))[Invoke(t.entries[k])] == if k in keys then 1 else 0
    decreases |keys|
  {
    if keys != [] {
      var init, last := keys[..|keys| - 1], keys[|keys| - 1];
      assert init <= t.keys;
      ScheduledCount(t, init, k);
      assert keys == init + [last];
      assert last in t.entries;
      assert Invoke(t.entries[last]) == Invoke(t.entries[k]) <==> last == k;
      if last == k {
        assert |keys| - 1 < |t.keys|;
        assert k !in init by {
          forall i | 0 <= i < |init| ensures init[i] != k {
            assert init[i] == t.keys[i] && k == t.keys[|keys| - 1];
          }
        }
      }
    }
  }

  /** Every task scheduled over some keys calls a stored callback. */
  lemma {:induction false} ScheduledFromTable(t: CallbackTable, keys: seq<string>)
    requires t.Valid() && forall k :: k in keys ==> k in t.entries
    ensures forall task :: task in Scheduled(keys, t.entries) ==> task.Invoke? && task.callback in t.entries.Values
    decreases |keys|
  {
    if keys != [] {
      var init := keys[..|keys| - 1];
      ScheduledFromTable(t, init);
      assert keys[|keys| - 1] in t.entries;
    }
  }

  // ---------------------------------------------------------------------------
  // One action menu
  // ---------------------------------------------------------------------------

  /** The container element of a menu, as far as the library touches it. */
  class Container {
    /** `dataset.id`: the registry key once bound */
    var dataId: Option<nat>
    /** the element's id attribute */
    var id: string
    /** its class list */
    var classes: set<string>
    /** event types a menu listens for on it */
    var listeners: set<string>
  }

  /** An event delivered to a menu: a click on some target tag, or the end of a named animation. */
  datatype MenuEvent = Click(targetTag: string) | AnimationEnd(animationName: string)

  class Action {
    /** the container; null once destroyed */
    var container: Container?
    /** the click callbacks registered with addEventListener */
    var callbacks: CallbackTable
    /** the `onclick` property a page may set */
    var onclick: JsValue

    /** A sound callback table, emptied once the menu is destroyed. */
    ghost predicate Valid()
      reads this
    {
      callbacks.Valid() && (container == null ==> callbacks == EmptyTable)
    }

    /** Binds a menu to its container: stamps the container with the new id and listens for click and animationend on it. */
    constructor (container: Container, id: nat)
      modifies container`dataId, container`listeners
      ensures Valid()
      ensures this.container == container && callbacks == EmptyTable && onclick == NotAFunction
      ensures container.dataId == Some(id)
      ensures container.listeners == old(container.listeners) + {"click", "animationend"}
    {
      this.container := container;
      callbacks := EmptyTable;
      onclick := NotAFunction;
      new;
      container.dataId := Some(id);
      container.listeners := container.listeners + {"click"};
      container.listeners := container.listeners + {"animationend"};
    }

    /** The container the menu still holds: none once destroyed. */
    function Held(): set<Container>
      reads this
    {
      if container == null then {} else {container}
    }

    /** The menu's identifier: its container's id, or None where the source's getter throws a TypeError on a destroyed menu. */
    function Id(): (r: Option<string>)
      reads this, container
      ensures r.Some? <==> container != null
      ensures r.Some? ==> r.value == container.id
    {
      if container == null then None else Some(container.id)
    }

    /** Makes the menu visible: drops `hidden`, adds `onviewport`. On a destroyed menu it throws a TypeError and changes nothing. */
    method Show() returns (thrown: bool)
      modifies Held()`classes
      ensures thrown <==> container == null
      ensures !thrown ==> container.classes == (old(container.classes) - {"hidden"}) + {"onviewport"}
    {
      if container == null {
        return true;
      }
      container.classes := container.classes - {"hidden"};
      container.classes := container.classes + {"onviewport"};
      thrown := false;
    }

    /** Starts hiding the menu: drops `onviewport` only; `hidden` comes when the animation ends. On a destroyed menu it throws a TypeError and changes nothing. */
    method Hide() returns (thrown: bool)
      modifies Held()`classes
      ensures thrown <==> container == null
      ensures !thrown ==> container.classes == old(container.classes) - {"onviewport"}
    {
      if container == null {
        return true;
      }
      container.classes := container.classes - {"onviewport"};
      thrown := false;
    }

    /**
     * Registers a click callback under its string form; any other event type,
     * or a value that is not a function, is ignored. Storing into the table of
     * a destroyed menu (whose table is gone) throws a TypeError and changes nothing.
     */
    method AddEventListener(eventType: string, callback: JsValue) returns (thrown: bool)
      requires Valid()
      modifies this`callbacks
      ensures Valid()
      ensures thrown <==> eventType == "click" && callback.Function? && container == null
      ensures callbacks == if eventType == "click" && callback.Function? && !thrown then Put(old(callbacks), callback) else old(callbacks)
    {
      if eventType != "click" || !callback.Function? {
        return false;
      }
      if container == null {
        return true;
      }
      callbacks := Put(callbacks, callback);
      thrown := false;
    }

    /**
     * Unregisters whatever is stored under a click callback's string form;
     * other calls are ignored. Deleting from the table of a destroyed menu
     * throws a TypeError and changes nothing.
     */
    method RemoveEventListener(eventType: string, callback: JsValue) returns (thrown: bool)
      requires Valid()
      modifies this`callbacks
      ensures Valid()
      ensures thrown <==> eventType == "click" && callback.Function? && container == null
      ensures callbacks == if eventType == "click" && callback.Function? && !thrown then Delete(old(callbacks), callback.source) else old(callbacks)
    {
      thrown := false;
      if eventType == "click" && callback.Function? {
        if container == null {
          return true;
        }
        callbacks := Delete(callbacks, callback.source);
      }
    }

    /**
     * A click is stopped and its default prevented; on a BUTTON it also
     * schedules the auto-hide, calls `onclick` at once when it is a function,
     * and schedules every registered callback in key order. The end of the
     * "hide" animation adds `hidden` and announces it; the end of any other
     * animation announces that the menu was shown.
     */
    method HandleEvent(evt: MenuEvent, win: Window) returns (stopped: bool, prevented: bool)
      requires Valid() && container != null
      modifies container`classes, win
      ensures stopped == evt.Click? && prevented == evt.Click?
      ensures evt.Click? ==> container.classes == old(container.classes) && win.events == old(win.events)
      ensures evt.Click? && evt.targetTag != "BUTTON" ==>
        win.timeouts == old(win.timeouts) && win.calls == old(win.calls)
      ensures evt.Click? && evt.targetTag == "BUTTON" ==>
        win.timeouts == old(win.timeouts) + [HideMenu(this)] + Scheduled(callbacks.keys, callbacks.entries) &&
        win.calls == old(win.calls) + (if onclick.Function? then [onclick] else [])
      ensures evt.AnimationEnd? ==> win.timeouts == old(win.timeouts) && win.calls == old(win.calls)
      ensures evt.AnimationEnd? && evt.animationName == "hide" ==>
        container.classes == old(container.classes) + {"hidden"} && win.events == old(win.events) + [HiddenEvent]
      ensures evt.AnimationEnd? && evt.animationName != "hide" ==>
        container.classes == old(container.classes) && win.events == old(win.events) + [ShowedEvent]
    {
      match evt {
        case Click(targetTag) =>
          stopped, prevented := true, true;
          if targetTag != "BUTTON" {
            return;
          }
          win.timeouts := win.timeouts + [HideMenu(this)];
          if onclick.Function? {
            win.calls := win.calls + [onclick];
          }
          var keys := callbacks.keys;
          var i := 0;
          while i < |keys|
            invariant 0 <= i <= |keys|
            invariant win.timeouts == old(win.timeouts) + [HideMenu(this)] + Scheduled(keys[..i], callbacks.entries)
            invariant win.calls == old(win.calls) + (if onclick.Function? then [onclick] else [])
            invariant win.events == old(win.events) && container.classes == old(container.classes)
          {
            assert keys[..i + 1][..i] == keys[..i];
            win.timeouts := win.timeouts + [Invoke(callbacks.entries[keys[i]])];
            i := i + 1;
          }
          assert keys[..i] == keys;
        case AnimationEnd(animationName) =>
          stopped, prevented := false, false;
          var eventName := ShowedEvent;
          if animationName == "hide" {
            container.classes := container.classes + {"hidden"};
            eventName := HiddenEvent;
          }
          win.events := win.events + [eventName];
      }
    }

    /** Stops listening on the container and clears the menu; on a destroyed menu it does nothing. */
    method Destroy()
      requires Valid()
      modifies this, Held()`listeners
      ensures Valid() && container == null
      ensures old(container) != null ==>
        callbacks == EmptyTable && onclick == NotAFunction &&
        old(container).listeners == old(container.listeners) - {"click", "animationend"} &&
        old(container).classes == old(container.classes) &&
        old(container).dataId == old(container.dataId) && old(container).id == old(container.id)
      ensures old(container) == null ==> callbacks == old(callbacks) && onclick == old(onclick)
    {
      if container == null {
        return;
      }
      container.listeners := container.listeners - {"click"};
      container.listeners := container.listeners - {"animationend"};
      container, callbacks, onclick := null, EmptyTable, NotAFunction;
    }
  }

  // ---------------------------------------------------------------------------
  // The registry of bound menus
  // ---------------------------------------------------------------------------

  /** The element's `dataset.id` names a registered menu. */
  predicate Registered(dataId: Option<nat>, menus: map<nat, Action>)
  {
    dataId.Some? && dataId.value in menus
  }

  class Registry {
    /** the bound menus by `dataset.id` */
    var actionMenus: map<nat, Action>
    /** the last id handed out */
    var counter: nat

    /** Every id in use was handed out, so the next id is free. */
    ghost predicate Valid()
      reads this
    {
      forall id :: id in actionMenus ==> 1 <= id <= counter
    }

    constructor ()
      ensures Valid() && actionMenus == map[] && counter == 0
    {
      actionMenus, counter := map[], 0;
    }

    /** The menus in the registry. */
    function Menus(): set<Action>
      reads this
    {
      actionMenus.Values
    }

    /** The containers of the live menus in the registry. */
    function Containers(): set<Container>
      reads this, Menus()
    {
      set m | m in actionMenus.Values && m.container != null :: m.container
    }

    /** The menu registered under the `dataset.id` of the element found by id, if any. */
    function Get(elem: Container?): (r: Option<Action>)
      reads this, elem
      ensures r.Some? <==> elem != null && Registered(elem.dataId, actionMenus)
      ensures r.Some? ==> r.value in Menus() && r.value == actionMenus[elem.dataId.value]
    {
      if elem == null then None
      else if Registered(elem.dataId, actionMenus) then Some(actionMenus[elem.dataId.value])
      else None
    }

    /** Returns the menu already registered under the element's `dataset.id`, or binds a new one under the next id. */
    method Bind(elem: Container) returns (menu: Action)
      requires Valid()
      modifies this, elem`dataId, elem`listeners
      ensures Valid() && Get(elem) == Some(menu)
      ensures Registered(old(elem.dataId), old(actionMenus)) ==>
        menu == old(actionMenus)[old(elem.dataId).value] &&
        actionMenus == old(actionMenus) && counter == old(counter) &&
        elem.dataId == old(elem.dataId) && elem.listeners == old(elem.listeners)
      ensures !Registered(old(elem.dataId), old(actionMenus)) ==>
        fresh(menu) && menu.Valid() && menu.container == elem && menu.callbacks == EmptyTable &&
        menu.onclick == NotAFunction &&
        counter == old(counter) + 1 && counter !in old(actionMenus) &&
        elem.dataId == Some(counter) && actionMenus == old(actionMenus)[counter := menu] &&
        elem.listeners == old(elem.listeners) + {"click", "animationend"}
    {
      if Registered(elem.dataId, actionMenus) {
        menu := actionMenus[elem.dataId.value];
        return;
      }
      counter := counter + 1;
      menu := new Action(elem, counter);
      actionMenus := actionMenus[counter := menu];
    }

    /**
     * Destroys every registered menu, empties the registry and restarts the
     * ids. Each live menu is cleared and its container stops listening for
     * click and animationend; a menu already destroyed is left as it was.
     */
    method Destroy()
      requires forall m :: m in Menus() ==> m.Valid()
      modifies this, Menus(), Containers()`listeners
      ensures Valid() && actionMenus == map[] && counter == 0
      ensures forall m :: m in old(Menus()) ==> m.Valid() && m.container == null
      ensures forall m :: m in old(Menus()) && old(m.container) != null ==>
        m.callbacks == EmptyTable && m.onclick == NotAFunction
      ensures forall m :: m in old(Menus()) && old(m.container) == null ==>
        m.callbacks == old(m.callbacks) && m.onclick == old(m.onclick)
      ensures forall c :: c in old(Containers()) ==>
        c.listeners == old(c.listeners) - {"click", "animationend"} &&
        c.classes == old(c.classes) && c.dataId == old(c.dataId) && c.id == old(c.id)
    {
      DestroyEach(Menus());
      actionMenus, counter := map[], 0;
    }
  }

  /** The containers still held by some of the menus. */
  function HeldBy(menus: set<Action>): set<Container>
    reads menus
  {
    set m | m in menus && m.container != null :: m.container
  }

  /** Destroys the given menus one at a time. */
  method DestroyEach(todo: set<Action>)
    requires forall m :: m in todo ==> m.Valid()
    modifies todo, HeldBy(todo)`listeners
    ensures forall m :: m in todo ==> m.Valid() && m.container == null
    ensures forall m :: m in todo && old(m.container) != null ==>
      m.callbacks == EmptyTable && m.onclick == NotAFunction
    ensures forall m :: m in todo && old(m.container) == null ==>
      m.callbacks == old(m.callbacks) && m.onclick == old(m.onclick)
    ensures forall c :: c in old(HeldBy(todo)) ==> c.listeners == old(c.listeners) - {"click", "animationend"}
    decreases todo
  {
    if todo == {} {
      return;
    }
    var m :| m in todo;
    m.Destroy();
    DestroyEach(todo - {m});
  }

  /** Binding the same element twice gives the same menu and hands out at most one id. */
  method BindTwice(registry: Registry, elem: Container) returns (first: Action, second: Action)
    requires registry.Valid()
    modifies registry, elem`dataId, elem`listeners
    ensures first == second
    ensures registry.counter <= old(registry.counter) + 1
  {
    first := registry.Bind(elem);
    second := registry.Bind(elem);
  }

  // ---------------------------------------------------------------------------
  // Building menu markup
  // ---------------------------------------------------------------------------

  /** One action of a descriptor: button id, button text, whitespace-separated classes. */
  datatype ActionDescriptor = ActionDescriptor(id: Option<string>, title: Option<string>, classList: Option<string>)

  /** A menu descriptor: menu id, title, actions. */
  datatype Descriptor = Descriptor(id: Option<string>, title: Option<string>, actions: Option<seq<ActionDescriptor>>)

  /** A string property is truthy when present and non-empty. */
  predicate Truthy(s: Option<string>)
  {
    s.Some? && s.value != ""
  }

  /** The class string yields no empty class name (adding one throws in the DOM): it is absent, empty, or not blank. */
  predicate ClassesAddable(a: ActionDescriptor)
  {
    Truthy(a.classList) ==> Trim(a.classList.value) != ""
  }

  /** Every action of the descriptor can be built. */
  predicate Buildable(d: Descriptor)
  {
    d.actions.Some? ==> forall i :: 0 <= i < |d.actions.value| ==> ClassesAddable(d.actions.value[i])
  }

  /** The class names a button takes from its class string. */
  function ButtonClasses(a: ActionDescriptor): set<string>
  {
    if Truthy(a.classList) then set c | c in Split(Trim(a.classList.value)) else {}
  }

  /** The button of one action: its id (the text "undefined" when it has none), its title as text, its classes. */
  function ActionButton(a: ActionDescriptor): Element
  {
    NewElement("button").(attributes := map["id" := a.id.GetOr("undefined")],
                          text := a.title.GetOr(""),
                          classes := ButtonClasses(a))
  }

  /** The markup of a menu: a hidden dialog form holding a titled section and, when actions are given, a menu of one button per action in order. */
  function Build(d: Descriptor): (form: Element)
    requires Buildable(d)
    ensures form.tag == "form" && form.classes == {"hidden"}
    ensures "role" in form.attributes && form.attributes["role"] == "dialog"
    ensures "data-type" in form.attributes && form.attributes["data-type"] == "action"
    ensures ("id" in form.attributes <==> Truthy(d.id)) && (Truthy(d.id) ==> form.attributes["id"] == d.id.value)
    ensures form.attributes.Keys <= {"role", "data-type", "id"}
    ensures |form.children| == (if d.actions.Some? then 2 else 1)
    ensures form.children[0].tag == "section" && |form.children[0].children| == 1
    ensures form.children[0].children[0].tag == "h1" && form.children[0].children[0].text == d.title.GetOr("")
    ensures d.actions.Some? ==>
      form.children[1].tag == "menu" && form.children[1].classes == {"actions"} &&
      |form.children[1].children| == |d.actions.value| &&
      forall i :: 0 <= i < |d.actions.value| ==> form.children[1].children[i] == ActionButton(d.actions.value[i])
  {
    var attributes := map["role" := "dialog", "data-type" := "action"] +
                      (if Truthy(d.id) then map["id" := d.id.value] else map[]);
    var heading := NewElement("h1").(text := d.title.GetOr(""));
    var section := NewElement("section").(children := [heading]);
    var menus := if d.actions.None? then [] else
      var actions := d.actions.value;
      [NewElement("menu").(classes := {"actions"},
                           children := seq(|actions|, i requires 0 <= i < |actions| => ActionButton(actions[i])))];
    NewElement("form").(attributes := attributes, classes := {"hidden"}, children := [section] + menus)
  }

  /** `create(descriptor)`: a missing descriptor builds like an empty one. */
  function Create(d: Option<Descriptor>): (form: Element)
    requires d.Some? ==> Buildable(d.value)
    ensures d.None? ==> form == Element("form", map["role" := "dialog", "data-type" := "action"], {"hidden"}, "",
                                        [Element("section", map[], {}, "", [Element("h1", map[], {}, "", [])])])
    ensures d.Some? ==> form == Build(d.value)
  {
    Build(d.GetOr(Descriptor(None, None, None)))
  }

  /** Every class name of a built button is a non-empty name without white space, and they are the fields of its trimmed class string. */
  lemma ButtonClassNames(a: ActionDescriptor)
    requires ClassesAddable(a)
    ensures forall c :: c in ActionButton(a).classes ==> c != "" && NoWhitespace(c)
    ensures Truthy(a.classList) ==> ActionButton(a).classes == set c | c in Split(Trim(a.classList.value))
    ensures !Truthy(a.classList) ==> ActionButton(a).classes == {}
  {
    if Truthy(a.classList) {
      ClassTokens(a.classList.value);
    }
  }
}
