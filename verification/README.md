# Bubbles & Craft storefront: UI state logic in Dafny

This project models the state logic of the mobile storefront of a
ceramics-painting café. The screens are mostly static markup. Five small pieces
of logic are modelled, each as immutable datatypes with pure transition
functions:

- **Reservation wizard** (`Reserve`). The customer toggles pieces in and out of
  a selection, keyed by piece id. A running total is kept over the selection.
  A three-step flow advances through a "next" button. The button is disabled
  at step 1 while nothing is selected, and at step 2 while the date or time is
  empty. The booking form edits one field at a time.
- **Sign-in screen** (`Auth`). It has three modes: login, signup and forgot.
  It has mode-switch buttons and a loading flag that disables the submit
  button. A delayed completion either calls `onLogin` or returns to login with
  an alert. The branch depends on the mode captured when the form was
  submitted.
- **Menu filter** (`Menu`). The filter keeps the catalogue order. The `Todos`
  tab passes everything through. None of the other four tab labels equals any
  item category, so for each of those tabs the filter yields an empty list.
- **App shell** (`App`). It covers the splash progress counter, the
  `renderContent` dispatch from tab to screen, and the bottom navigation bar.
- **Logout confirmation** (`Profile`). This is a two-state modal. `onLogout` is
  reachable only from the open modal.

`Types` holds the records of `types.ts`. `Constants` holds the piece and menu
catalogues. `Seqs` holds the order-preserving filter that both the selection
and the menu use, with its lemmas: membership, subsequence, idempotence,
concatenation, multiplicity, keep-all and keep-none. It also holds `Count`,
the number of occurrences of a value, which the navigation bar, the sign-in
run and the logout run use.

Timers and randomness are modelled as explicit events:

- the network delay of the sign-in screen is `Auth.TimerFires`;
- the splash interval tick is `App.Tick(r)`, with `r` the random increment in [0, 20);
- the 500 ms hide timeout of the splash is `App.HideTimerFires`.

A press on a control that is not rendered, or that is disabled, is modelled as
an event that leaves the state unchanged.

## Model

| member | source | states |
|---|---|---|
| Reserve.RemoveId | views/ReserveView.tsx:16 | The result keeps exactly the selected entries whose id differs, each as many times as it occurs in the selection, as an order-preserving subsequence. No entry with the id remains |
| Reserve.Toggle | views/ReserveView.tsx:12-21 | Toggling flips whether the id is selected. An absent piece is appended at the end and earlier entries are unchanged. A present id is removed, which shortens the selection and keeps every other entry, with its multiplicity and in order |
| Reserve.SelectedById | views/ReserveView.tsx:14-16 | Membership is by id: a different record with a selected id counts as selected, and toggling it removes the selected record |
| Reserve.ToggleKeepsDistinct | views/ReserveView.tsx:12-21 | A toggle preserves "no two selected entries share an id" |
| Reserve.RemoveIdKeepsDistinct | views/ReserveView.tsx:16 | Filtering out an id preserves distinct ids |
| Reserve.ToggleAllDistinct | views/ReserveView.tsx:9-21 | Any series of toggles from a selection with distinct ids, the empty one included, keeps the ids distinct |
| Reserve.ToggleTwiceRestores | views/ReserveView.tsx:12-21 | Toggling the same absent piece twice returns the original selection |
| Reserve.RemoveUniqueEntry | views/ReserveView.tsx:14-16 | With distinct ids, toggling a selected id removes exactly that one entry and keeps the rest |
| Reserve.TotalPrice | views/ReserveView.tsx:25 | The total of the empty selection is 0, and a single entry totals its own price |
| Reserve.TotalPriceBounds | views/ReserveView.tsx:25 | With non-negative prices the total is non-negative and at least the price of every selected entry |
| Reserve.TotalWithout | views/ReserveView.tsx:25 | Taking entry k out of a selection lowers the total by exactly that entry's price |
| Reserve.TotalPriceAppend | views/ReserveView.tsx:25 | The total of a concatenation is the sum of the two totals |
| Reserve.ToggleTotal | views/ReserveView.tsx:12-25 | Toggling a piece in adds its price. Toggling a selected id out subtracts the price of the selected entry with that id |
| Reserve.RemoveEntryTotal | views/ReserveView.tsx:25 | Removing the single entry with a given id subtracts exactly its price from the total |
| Reserve.CatalogueTotalExample | views/ReserveView.tsx:12-25 | On the catalogue, selecting pieces 1 and 2 totals 2000. Deselecting piece 1 then leaves only piece 2 |
| Reserve.UpdateField | views/ReserveView.tsx:88-135 | Editing the date, time, guests or notes writes that field and leaves the other three unchanged |
| Reserve.UpdateFieldCommutes | views/ReserveView.tsx:88-135 | Edits of different fields commute, and a later edit of the same field overrides an earlier one |
| Reserve.NextDisabled | views/ReserveView.tsx:168 | At step 1 the button is disabled iff nothing is selected. At step 2 it is disabled iff the date or the time is empty. At any other step it is enabled |
| Reserve.PressNext | views/ReserveView.tsx:165-169 | "Next" advances the step by exactly 1 iff the bar is shown (step < 3) and the disabled guard is false. Otherwise nothing changes. The selection and booking are never touched |
| Reserve.Indicator | views/ReserveView.tsx:33-35 | There are three bars, and bar i (counting from 0) is filled iff the step is at least i + 1 |
| Reserve.IndicatorFilledPrefix | views/ReserveView.tsx:33-35 | At steps 1 to 3, bar i is filled iff step >= i. The filled bars are exactly the first `step` bars |
| Reserve.Apply | views/ReserveView.tsx:39-169 | Toggles act only at step 1, where they toggle the selection and leave the step and the booking alone. Field edits act only at step 2, where they write the edited field. "Next" is exactly the guarded press. Only "next" changes the step, and only by +1 |
| Reserve.ApplyKeepsInvariant | views/ReserveView.tsx:165-169 | One action preserves the invariant: step in 1..3, ids distinct, step >= 2 implies a non-empty selection, step 3 implies date and time set |
| Reserve.RunKeepsInvariant | views/ReserveView.tsx:165-169 | Any series of actions preserves that invariant |
| Reserve.ReachableStatesValid | views/ReserveView.tsx:8-10 | Every state reachable from the initial wizard satisfies the invariant |
| Auth.VisibleFields | views/AuthView.tsx:53-97 | The name and phone fields appear iff the mode is signup. The password field appears iff the mode is not forgot. The contact field always appears |
| Auth.Enabled | views/AuthView.tsx:99-143 | "forgot" and "register" are available iff the mode is login. "back" is available iff the mode is signup or forgot. Submit is available iff not loading. The completion can fire iff one is pending |
| Auth.FooterOffersOne | views/AuthView.tsx:128-143 | In every state the footer offers exactly one of "register" and "back" |
| Auth.SubmitForm | views/AuthView.tsx:15-19 | Submitting sets the loading flag, which disables the submit button. It schedules a completion that captures the current mode |
| Auth.Complete | views/AuthView.tsx:19-27 | Completion clears the loading flag. It calls `onLogin` iff the captured mode is not forgot, and then the mode is unchanged. A forgot completion sets the mode to login and alerts |
| Auth.Step | views/AuthView.tsx:15-143 | Disabled or hidden controls change nothing. An available mode switch sets exactly the new mode and leaves the loading flag and the pending completion alone. An accepted submit is `SubmitForm`, and a fired timer is `Complete`. `onLogin` comes only from a completion whose captured mode is not forgot |
| Auth.InitialState | views/AuthView.tsx:12-13 | The screen opens in login mode, not loading, showing the contact and password fields |
| Auth.ModeSwitches | views/AuthView.tsx:99-143 | From login, "forgot" goes to forgot and "register" goes to signup. From signup or forgot, "back" returns to login. Hidden buttons do nothing |
| Auth.StepKeepsInvariant | views/AuthView.tsx:15-27 | Every step keeps "loading iff a completion is pending". A submit while loading is ignored |
| Auth.CapturedModeDecides | views/AuthView.tsx:15-27 | Switching to forgot while a login submit is pending still logs in. Switching away from forgot after a forgot submit still only alerts and returns to login |
| Auth.CompletionIgnoresCurrentMode | views/AuthView.tsx:19-27 | The completion's effect depends only on the captured mode, not on the mode current when the timer fires |
| Auth.LoginsBoundedBySubmits | views/AuthView.tsx:15-27 | Along any run, `onLogin` calls plus the pending completion never exceed the accepted submits plus the one pending at the start |
| Menu.FilterItems | views/MenuView.tsx:10-12 | The `Todos` label returns the list unchanged. Any other label returns items of that category only. The result is always an order-preserving subsequence |
| Menu.FilteredItems | views/MenuView.tsx:10-12 | On the catalogue, `Todos` yields all of it. Any label yields exactly the catalogue items whose category name equals it, or all of them for `Todos`, in catalogue order |
| Menu.FilterComplete | views/MenuView.tsx:12 | For a non-`Todos` label, an item is in the result iff it is in the list and its category equals the label |
| Menu.FilterIdempotent | views/MenuView.tsx:10-12 | Filtering the filtered list again with the same label changes nothing |
| Menu.TabsMatchNoCategory | views/MenuView.tsx:9 | No menu category name equals any of the four non-`Todos` tab labels |
| Menu.OtherTabsShowNothing | views/MenuView.tsx:9-12 | Every non-`Todos` tab yields the empty list, and the `Todos` tab yields the whole list |
| Menu.InitialShowsCatalogue | views/MenuView.tsx:7-11 | The initial category is `Todos`, and for it the filter computes the full 11-item catalogue unchanged |
| Menu.SelectTab | views/MenuView.tsx:23-27 | Pressing a tab sets the active category to exactly its label, which then matches that tab only |
| App.NextProgress | App.tsx:18-24 | A tick gives min(old + r, 100). At 100 it stays 100. The result never exceeds 100, never decreases and rises by less than 20 |
| App.SplashStep | App.tsx:16-28 | A tick on a running interval below 100 applies the progress update and nothing else. A tick at 100 stops the interval and nothing else. The hide timeout after the interval stopped ends the splash. Ticks after the stop and a timeout while ticking change nothing. So a tick never lowers progress or moves it above 100, and the splash ends only after the interval stopped |
| App.RunSplashMonotone | App.tsx:16-28 | Along any run, progress stays in [0, 100] and never decreases. The interval stops only at 100, and the splash ends only after it stops |
| App.SplashReachable | App.tsx:13-28 | Every splash state reachable from the initial one satisfies that invariant |
| App.TickAtFull | App.tsx:19-22 | A tick at progress 100 returns 100 and stops the interval |
| App.InitialNavMarksHome | App.tsx:12-69 | The initial `activeTab` is home. The nav bar is not rendered during the splash, so the tab cannot change before the splash ends. When the splash ends, only the home button is marked active and the home screen is shown |
| App.RenderContent | App.tsx:50-59 | A tab key shows that tab's screen. Any other string falls back to the home screen |
| App.RenderContentTotal | App.tsx:51-58 | Every tab maps to its own screen |
| App.TabKeyInjective | types.ts:2 | Distinct tabs have distinct keys |
| App.PressNav | App.tsx:68-97 | Pressing navigation button i sets the active tab to button i's tab, which belongs to no other button |
| App.NavBar | App.tsx:68-97 | Button j is marked active iff its tab is the active tab |
| App.PressNavMarksOne | App.tsx:68-97 | After pressing button i, exactly one button is marked active, and it is button i |
| Profile.Press | views/ProfileView.tsx:47-87 | `onLogout` is called iff the modal is open and "Confirmar Saída" is pressed, and confirming leaves the modal flag as it was. "Sair" opens the modal. "Cancelar" and the backdrop close an open modal. Presses on the hidden modal change nothing |
| Profile.NoSairNoLogout | views/ProfileView.tsx:11-87 | From the initial closed modal, a run without "Sair" never opens it and never calls `onLogout` |
| Profile.LogoutsBoundedByConfirms | views/ProfileView.tsx:76-77 | `onLogout` is called at most once per "Confirmar Saída" press |
| Profile.LogoutScenarios | views/ProfileView.tsx:47-87 | "Sair" then confirm logs out once. Cancelling or tapping the backdrop before confirming logs out zero times |

## Left out

- The image crop, zoom, rotate and composite editor and its publish flow. None of the files modelled here implements them. The gallery screen (`views/GalleryView.tsx`) is a static grid.
- Rendering, styling and the static screens (`views/HomeView.tsx`, `views/GalleryView.tsx`, `tailwind.config.js`). They are view composition with no state logic.
- Timer scheduling and `Math.random`. They become explicit events, and the random increment is a bounded parameter.
- `window.location.reload` on the confirmation step, `alert`, and the `toLocaleString` price formatting. `alert` is the `ShowAlert` effect.
- The browser's validation of the `required` sign-in inputs. Those inputs are uncontrolled and never read, so `Submit` stands for a submission that passed this validation.
- Reserve.UpdateField: guests are an `int`. The `NaN` that `parseInt` yields on a non-numeric entry is not modelled.
- Reserve.TotalPrice: prices are unbounded integers. The floating-point sum in `views/ReserveView.tsx` is exact for every catalogue price, and rounding beyond 2^53 is not modelled.
- App.NextProgress: progress is a mathematical real, and floating-point rounding of `oldProgress + Math.random() * 20` is not modelled. With doubles, `Math.random() * 20` is at most 19.999999999999996, and `60 + 19.999999999999996` rounds to `80.0`. So the program can raise progress by exactly 20, and "rises by less than 20" holds only for the real-valued model.
- The shell never mounts the sign-in screen. `App.tsx` does not render `AuthView`, and no file modelled here passes it `onLogin`. `Auth` models the component on its own, with `CallOnLogin` standing for the call it would make to a supplied callback.
- The ill-typed accesses on menu items, reservations and the profile callback. `Menu` and `Profile` model the two components as if they were given well-typed data and a supplied `onLogout`. With the shipped data they fail at run time:
  - No menu item in `constants.tsx` has a `price`, so `item.price.toLocaleString()` (views/MenuView.tsx:47) throws a `TypeError` on the first render, whose `Todos` list holds all 11 items. The menu screen never renders.
  - No mock reservation has `pieceNames`, so `res.pieceNames.join(', ')` (views/ProfileView.tsx:35) throws on every render. The profile screen and its logout modal never render.
  - `App.tsx:56` renders the profile screen without `onLogout`, so "Confirmar Saída" (views/ProfileView.tsx:77) has no handler. `Profile.Press`'s `logout` flag stands for the call the component would make if a callback were passed.
  - `item.image` is harmless: the image gets `src={undefined}`.
- The reservation records, gallery images and order history of `constants.tsx`. They feed only static lists. The catalogue descriptions and image references are abbreviated because no logic reads them.
- A concrete menu example for a category that matches, such as "Pizzas". Instantiating the filter on the 11-item constant is too costly for the solver. The general lemmas `Menu.FilterComplete` and `Menu.FilterItems` cover it.
