# Building Blocks widgets: seekbars and action menus

This project is a Dafny model of two widget libraries from the Building
Blocks UI toolkit.

**Seekbars** (`js/seekbars.js`) turns every element with `role="slider"` into
a draggable slider. Such an element holds a `progress` element followed by a
handle `button`. The model covers:

- the two conversions between an ARIA value in `[aria-valuemin,
  aria-valuemax]` and a progress value in `[0, 1]`;
- the attribute defaulting done by the slider constructor;
- the press / move / release drag state machine, with its listener changes,
  `aria-valuenow` updates and `change` events;
- destroy;
- the module's list of sliders: initialize, reset, re-arrange on resize,
  bind;
- the markup built by `create`.

**Action menus** (`js/action_menu.js`) drive dialogs of the form `role="dialog"
data-type="action"`. The model covers:

- one `Action` per container;
- the callback table, an object that stores each click callback under its
  string form;
- show and hide as class changes;
- click handling: stop, prevent, auto-hide, `onclick`, then one
  `setTimeout` per registered callback;
- `animationend` handling (the `hidden` class and the
  `actionmenu-hidden` / `actionmenu-showed` window events);
- destroy;
- the registry of menus keyed by `dataset.id`: `get`, `bind`, `destroy`;
- the markup built by `build` / `create`, including how a button's class
  string is trimmed and split on white space.

Files:

- `dom.dfy`: `Option`, an `Element` record (tag, attributes, classes, text,
  children) and `DomEvent`.
- `js_text.dfy`: `String.prototype.trim` and `split(/\s+/g)` over ECMAScript
  white space, with their properties.
- `seekbars.dfy`: the conversion functions and their lemmas, attribute
  defaulting, and the classes `Slider` and `SliderRegistry`.
- `action_menu.dfy`: the callback table, and the classes `Window`,
  `Container`, `Action` and `Registry`. Also `Build` / `Create`.

State that the JavaScript keeps in objects is modelled with classes. This
covers the slider's cached geometry and drag state, the module-level lists
and maps, the menu's container and callbacks, and the window's timer queue
and event log. Each method names the fields it may change in its `modifies`
clause, and its `ensures` gives the new value of every one of them in terms
of the old state and of the specification functions. Markup building is
pure and is modelled with functions over `Element` records.

Two behaviours of the code are easy to mistake for something else:

- One might expect seekbars `bind` to be idempotent like action-menu
  `bind`. It is not: it pushes a new `Slider` every time, even for an
  element already bound. See `SliderRegistry.Bind` and
  `ActionMenu.BindTwice`.
- When `aria-valuemax < aria-valuemin`, only the local range end used for
  the initial progress is reset to 1. The slider's `valuemax` keeps the
  author's value, and later drags map progress onto that inverted range; see
  `SliderValueBetweenBounds`.

## Model

| member | source | states |
|---|---|---|
| Seekbars.ProgressValue | js/seekbars.js:45-57 | The progress of any value is within [0, 1], and strictly inside it when the value is strictly inside the range |
| Seekbars.ProgressValueMonotonic | js/seekbars.js:45-57 | Over a proper range, a larger value never has a smaller progress |
| Seekbars.SliderValue | js/seekbars.js:68-80 | The value of a progress, with the test against 1 first; its properties are the lemmas in the next rows |
| Seekbars.InterpolationInside | js/seekbars.js:68-80 | A progress strictly between 0 and 1 maps strictly inside a proper range |
| Seekbars.InterpolationInsideInverted | js/seekbars.js:68-80 | A progress strictly between 0 and 1 maps strictly inside an inverted range |
| Seekbars.SliderValueBetweenBounds | js/seekbars.js:68-80 | Any progress maps into [min, max], or into [max, min] when the range is inverted |
| Seekbars.RangeEnds | js/seekbars.js:45-80 | The range ends have progress 0 and 1. An empty range gives progress 1. Progress 0 and 1 give back min and max |
| Seekbars.SliderOfProgress | js/seekbars.js:45-80 | Over a proper range, value to progress to value is the identity on [min, max] |
| Seekbars.ProgressOfSlider | js/seekbars.js:45-80 | Over a proper range, progress to value to progress is the identity on [0, 1] |
| Seekbars.OrDefault | js/seekbars.js:92-96 | A parsed attribute is kept exactly when it is present and non-zero. Missing, NaN and 0 all give the default |
| Seekbars.EffectiveMax | js/seekbars.js:99-101 | The range end used for the initial progress: 1 when aria-valuemax is below aria-valuemin; stated through InitialProgress and InitialProgressMatchesNow |
| Seekbars.InitialNow | js/seekbars.js:103-107 | The initial aria-valuenow: the parsed attribute, or valuemin when it is missing or NaN; stated through InitialProgressMatchesNow |
| Seekbars.InitialProgress | js/seekbars.js:98-110 | The initial progress is always in [0, 1], and is 0 when aria-valuenow is missing or NaN over a proper range |
| Seekbars.InitialProgressMatchesNow | js/seekbars.js:92-110 | On a well-formed element, the initial progress maps back to aria-valuenow. A missing aria-valuenow puts the handle at the start |
| Seekbars.ClampToTrack | js/seekbars.js:131-136 | The press position is clamped into [progressLeft, progressRight]: kept inside the track, moved to the nearer end outside it |
| Seekbars.ProgressCurrent | js/seekbars.js:251 | Reading back the progress element gives the written value clamped to [0, 1]: unchanged inside, 0 below, 1 above |
| Seekbars.ResizeKeepsValue | js/seekbars.js:248-254 | Re-reading the clamped progress after a resize maps to the same external value as the progress last written |
| Seekbars.Rearranged | js/seekbars.js:248-254 | A slider's state after a resize keeps its range, value, progress, listeners and events, and restarts from a start progress in [0, 1] |
| Seekbars.Slider.constructor | js/seekbars.js:85-117 | A new slider has the defaulted range, the initial aria-valuenow and progress, the measured geometry, and only the press listener |
| Seekbars.Slider.DeltaX | js/seekbars.js:176-178 | The drag offset: saved offset plus pointer x minus the handle centre at the press; stated through UpdateUI, Press, Drag and Release |
| Seekbars.Slider.CalculateDimensions | js/seekbars.js:202-211 | The track width, half handle width and track ends are cached from the layout, and the saved offset is reset to 0 |
| Seekbars.Slider.SetValue | js/seekbars.js:192-200 | Sets the progress and sets aria-valuenow to the converted value, inside the range when the range is proper. Dispatches one bubbling change event |
| Seekbars.Slider.UpdateUI | js/seekbars.js:183-190 | The progress becomes the start progress plus the drag offset over the track width, and aria-valuenow follows |
| Seekbars.Slider.HandleEvent | js/seekbars.js:120-171 | Dispatches a press, a move or a release to the three rows below, on a live slider holding the listener for that event; validity is kept throughout. The default action is prevented on a move and on a release, but not on a press, so that the `:active` pseudo-class still applies |
| Seekbars.Slider.Press | js/seekbars.js:122-145 | Clamps the pointer into the track, records the handle centre, updates the UI, and swaps the press listener for release, plus move when the press hit the handle |
| Seekbars.Slider.Drag | js/seekbars.js:147-160 | Left of the track the progress becomes 0 and the value min; right of it 1 and max; inside it the pointer is followed. One change event each time |
| Seekbars.Slider.Release | js/seekbars.js:162-169 | Saves the drag offset and returns to waiting for a press, with the window listeners dropped |
| Seekbars.Slider.Relayout | js/seekbars.js:249-252 | One slider's resize step: the new geometry and the re-read start progress, every other field unchanged |
| Seekbars.Slider.Destroy | js/seekbars.js:220-229 | Drops the press listener and clears the slider. Window listeners of a drag in progress are left |
| Seekbars.SliderRegistry.constructor | js/seekbars.js:20 | The slider list starts empty |
| Seekbars.SliderRegistry.Reset | js/seekbars.js:241-246 | Every listed slider is destroyed: it is marked dead and loses only its touchstart listener. Its value, progress and events are unchanged, because the frame names only `alive` and `listeners` of the listed sliders. The list is emptied |
| Seekbars.SliderRegistry.Initialize | js/seekbars.js:232-239 | Old sliders are destroyed. Then there is exactly one fresh slider per slider element, in document order, each built from its element. Of the old sliders only `alive` and `listeners` change, as in Reset |
| Seekbars.SliderRegistry.ReArrange | js/seekbars.js:248-254 | Every slider's new state is its rearranged old state: new geometry, zero offset, start progress equal to its clamped progress; range, value, pointer positions, listeners and events unchanged |
| Seekbars.SliderRegistry.Bind | js/seekbars.js:292-295 | One fresh slider built from the element is appended, and the earlier list is untouched |
| Seekbars.Create | js/seekbars.js:302-321 | Slider markup: a div with role slider, which options may override, plus exactly the option attributes. It holds a wrapper with a presentation progress and a button |
| JsText.TrimStart | js/action_menu.js:212 | The result is a suffix that does not start with white space, and only white space was dropped |
| JsText.TrimEnd | js/action_menu.js:212 | The result is a prefix that does not end with white space, and only white space was dropped |
| JsText.Trim | js/action_menu.js:212 | String.prototype.trim; stated by the three rows below |
| JsText.TrimEmptyIffBlank | js/action_menu.js:212 | trim gives the empty string exactly for an all-white-space input |
| JsText.TrimIsTrimmed | js/action_menu.js:212 | The result of trim neither starts nor ends with white space |
| JsText.TrimIsSlice | js/action_menu.js:212 | The result of trim is the slice of the input between a leading and a trailing run of white space |
| JsText.Split | js/action_menu.js:212 | Splitting on white-space runs yields at least one field, and the first field is empty exactly when the input is empty or starts with white space |
| JsText.Separators | js/action_menu.js:212 | The white-space runs the split cuts at; a string starting with white space has at least one |
| JsText.SplitAtWhitespaceRuns | js/action_menu.js:212 | There is one run between each two neighbouring fields, every run is non-empty white space, and fields and runs interleaved give back the input |
| JsText.SplitKeepsText | js/action_menu.js:212 | Concatenating the fields gives exactly the non-white-space characters, in order |
| JsText.SplitFieldsHaveNoWhitespace | js/action_menu.js:212 | No field contains white space |
| JsText.SplitFieldsNonEmpty | js/action_menu.js:212 | If the input does not end in white space, the fields after the first are non-empty |
| JsText.ClassTokens | js/action_menu.js:209-215 | The class names from a non-blank class string are non-empty and white-space free, and together spell its non-white-space text |
| ActionMenu.Put | js/action_menu.js:73 | Storing a callback under its string form keeps the table sound. A new key goes last, and other entries and positions are unchanged |
| ActionMenu.Without | js/action_menu.js:86 | Removing a key from the key list keeps every other key and keeps keys distinct; that the rest keep their order is the next-but-one row, WithoutRemovesOne |
| ActionMenu.Delete | js/action_menu.js:86 | Deleting a key removes exactly that entry and keeps the table sound. The key is cut from its one position and the other keys keep their order; an absent key changes nothing |
| ActionMenu.WithoutRemovesOne | js/action_menu.js:86 | From distinct keys, a key is cut out at its one position, the keys before and after it keeping their order |
| ActionMenu.WithoutAbsent | js/action_menu.js:86 | Removing an absent key leaves the key list unchanged |
| ActionMenu.WithoutAppended | js/action_menu.js:73-86 | Removing the key just appended restores the key list |
| ActionMenu.PutTwice | js/action_menu.js:73 | Adding the same callback twice leaves the table as one addition does |
| ActionMenu.PutThenDelete | js/action_menu.js:68-88 | Removing a callback just added to a table without its key restores the table |
| ActionMenu.DeleteAbsent | js/action_menu.js:84-88 | Removing an unregistered callback leaves the table unchanged |
| ActionMenu.Scheduled | js/action_menu.js:109-114 | One timer task per key |
| ActionMenu.ScheduledOnce | js/action_menu.js:109-114 | Every registered callback is scheduled exactly once, and every scheduled task calls a registered callback |
| ActionMenu.ScheduledCount | js/action_menu.js:109-114 | Over a key prefix, a callback is scheduled once if its key is in the prefix and otherwise never |
| ActionMenu.ScheduledFromTable | js/action_menu.js:109-114 | Every scheduled task calls a stored callback |
| ActionMenu.Action.constructor | js/action_menu.js:26-34 | A new menu holds its container and stamps it with the given id. It listens for click and animationend and starts with an empty table |
| ActionMenu.Action.Id | js/action_menu.js:40-42 | The menu's identifier is its container's id. It is None exactly on a destroyed menu, where the source's getter throws a TypeError |
| ActionMenu.Action.Show | js/action_menu.js:47-50 | On a live menu the class set loses hidden and gains onviewport. On a destroyed menu it throws and changes nothing |
| ActionMenu.Action.Hide | js/action_menu.js:55-57 | On a live menu the class set loses onviewport only. On a destroyed menu it throws and changes nothing |
| ActionMenu.Action.AddEventListener | js/action_menu.js:68-74 | A click callback that is a function is stored under its string form. On a destroyed menu that call throws instead. Any other call leaves the table unchanged |
| ActionMenu.Action.RemoveEventListener | js/action_menu.js:84-88 | A click callback that is a function has its key deleted. On a destroyed menu that call throws instead. Any other call leaves the table unchanged |
| ActionMenu.Action.HandleEvent | js/action_menu.js:95-130 | A click is stopped and prevented. On a BUTTON it then queues the hide, calls onclick if it is a function, and queues each callback in key order. The hide animation adds hidden and dispatches actionmenu-hidden. Any other animation dispatches actionmenu-showed |
| ActionMenu.Action.Destroy | js/action_menu.js:135-144 | A live menu removes its two listeners and clears container, callbacks and onclick; the container's classes, dataset id and id are untouched. A destroyed menu is left unchanged |
| ActionMenu.Registry.constructor | js/action_menu.js:17-18 | The registry starts empty, with counter 0 |
| ActionMenu.Registry.Get | js/action_menu.js:228-236 | A menu is found exactly when the element exists and its dataset.id is registered, and it is the registered one |
| ActionMenu.Registry.Bind | js/action_menu.js:244-256 | A registered element gets its menu back with nothing changed. Otherwise the counter advances to an unused id and a fresh menu is stamped and registered under it, with an empty table and a non-function `onclick` |
| ActionMenu.Registry.Destroy | js/action_menu.js:176-182 | Every registered menu ends destroyed: a live one has its table and onclick cleared, a destroyed one keeps them. Each container loses exactly click and animationend and keeps its classes and ids. The registry is emptied and the counter restarts at 0 |
| ActionMenu.DestroyEach | js/action_menu.js:177-179 | Destroying a set of menus one at a time leaves each destroyed, and each container they held without its two listeners |
| ActionMenu.BindTwice | js/action_menu.js:244-256 | Binding an element twice returns the same menu and uses at most one id |
| ActionMenu.ButtonClasses | js/action_menu.js:209-215 | The classes a button takes from its class string; stated by ButtonClassNames |
| ActionMenu.ActionButton | js/action_menu.js:204-216 | One action's button: its id (the text undefined when missing), its title as text, its classes; stated through Build and ButtonClassNames |
| ActionMenu.Build | js/action_menu.js:184-222 | A hidden dialog form with data-type action, and id only when the descriptor id is truthy. It holds a section with an h1 of the title or "", then, when actions are given, a menu of one button per action in order |
| ActionMenu.Create | js/action_menu.js:270-272 | A missing descriptor builds the bare hidden dialog with an empty title |
| ActionMenu.ButtonClassNames | js/action_menu.js:204-216 | A button's classes are the fields of its trimmed class string, all non-empty and without white space, or none when the string is missing or empty |

## Left out

- Vendor and touch detection and the mouse/touch event names are left out. `getX` is represented by the pointer x carried in each event.
- The CSS `transform` and `style.left` strings written by `updateUI` and `placeHandler` are left out; they are presentation only.
- `placeHandler` is not modelled, for the same reason.
- IEEE-754 arithmetic is not modelled: numbers are Dafny reals. Infinity, rounding, and the NaN a zero-width track would give are outside the model. `UpdateUI` and a press or in-track move therefore require a non-zero track width.
- `parseFloat` is not modelled. An attribute arrives already parsed, with `None` for a missing or unparsable one. `setAttribute` stores numbers as strings, and the model keeps the number.
- The selector-string form of both `bind` functions (`document.querySelector`) is left out. The element is passed directly.
- `getElementById` inside `get` is left out. `Registry.Get` takes the element it would return, or null.
- An authored, non-numeric `data-id` on a menu container is left out, because ids are naturals.
- Removing the menu container from its parent in `Action.destroy` is not modelled. The library only detaches the node, and the call throws when it has no parent.
- Seekbars `Slider.destroy` sets its fields to null; the model records this only as `alive == false`.
- Two `Slider` objects on one element each keep their own copy of the element state (`valuenow`, `events`). The model does not share it between them.
- The stylesheet link added by `addStyleSheet`/`getPath` is left out.
- Automatic initialisation on `DOMContentLoaded` is left out.
- The `resize` / `orientationchange` subscriptions are left out.
- The module-level `initialize` that binds every dialog is left out. It is a loop of `Registry.Bind`.
- ActionMenu.HandleEvent: a queued callback task records the callback that was registered when the click happened. The source looks the key up again when the timer fires, so a callback removed in between would then be called through `undefined` and throw. The event loop itself, and the effects of running `onclick`, the callbacks and the hide task, are not modelled.
- ActionMenu.Action.Destroy: the callback table is emptied rather than set to null, and `onclick` becomes a non-function. `AddEventListener`, `RemoveEventListener`, `Show` and `Hide` on a destroyed menu report the TypeError as `thrown` instead of reading the null fields.
- ActionMenu.Action.HandleEvent: requires a live container. Destroy removes the container's listeners, so events no longer reach the menu; a direct call on a destroyed menu, which throws in the source for a BUTTON click (`Object.keys(null)`) and for the hide animation, is not modelled.
- Seekbars.Slider.HandleEvent: requires a live slider. A slider destroyed in the middle of a drag keeps its window touchmove / touchend listeners, and in the source the next such event throws a TypeError on the nulled fields (`progress`, `slider`). Events after destroy are not modelled; this is probably an oversight in the source, since `destroy` removes only the touchstart listener.
- ActionMenu.Registry.Destroy: the source destroys the menus in `Object.keys` order; the model destroys them one at a time in an unspecified order (`DestroyEach`). The order is not observable: each destroy touches only its own menu and the listeners of its container, and removing the same listeners twice changes nothing.
- Seekbars.Slider.constructor: the source leaves `currentX` and `startX` undefined until the first press; the model starts them at 0 and states nothing about them.
- ActionMenu.Build: a non-empty class string made only of white space makes `classList.add('')` throw a SyntaxError (DOM Standard, DOMTokenList). Rather than model the exception, `Build` requires callers not to pass such a string.
- Attribute-name lowercasing by `setAttribute` in seekbars `create` is not modelled. Option keys are taken as given.
