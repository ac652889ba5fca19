# hometab core in Dafny

A model of the two stateful components of the hometab new-tab launcher, with
proofs of what they promise.

- **Grid navigator** (`src/Navigator.ts`, module `Navigation`). The class
  `Navigator` has the source's three fields: `currentIndex`, `itemCount` and
  `columns`. A ghost `log` records every call of the two callbacks
  (`FocusChange(i)` for `onFocusChange(i)`, `Activate(i)` for `onEnter(i)`).
  `SetItems` clamps the index. `HandleKey` works like the source: it builds a
  candidate in a local `nextIndex` and commits it only when it names a tile.
  It returns whether the key's default action is suppressed. `ResetFocus`
  forces index 0. Key presses are also modelled as values. `Press` is one key
  and `Run` is a sequence of keys. `HandleKey` is proved equal to `Press`.
  The lemmas are about `Press` and `Run`. They show that there is no
  wrap-around and no clamping, that the grid invariant is kept, that callbacks
  name only existing tiles, and that an empty grid never moves. They also
  prove the ten-tile walk.
- **Shortcut store** (`src/Launcher.ts`, module `ShortcutStore`). The class
  `Launcher` holds the shortcut list, the greeting override and the backing
  store. The backing store is a value with two keys. A missing key is `None`.
  `AddShortcut`, `UpdateShortcut` and `RemoveShortcut` update the list.
  Each one then overwrites the shortcut key. The list operations are
  specified by the functions `FindIndex`, `Updated` and `Without`. Lemmas
  about these functions cover order, idempotence, id uniqueness and add
  followed by update or remove. The loads fall back to the four default
  shortcuts, or to no greeting. `GetMetadata` derives a title and a favicon
  URL from a URL. The URL parser is a parameter `hostOf`: it gives the
  host name, or `None` where the parser throws.

Three behaviours of the code that a reader might not expect, which the model keeps:

- A load that falls back to the defaults does not write them back to storage
  (`src/Launcher.ts:51-62`).
- The title removes the first `"www."` found anywhere in the host name, not
  only a leading label (`src/Launcher.ts:104`). For example, `"ab-www.x.com"`
  is titled as if it were `"ab-x.com"` (`InnerWwwDropped`).
- An input such as `"httpbin.org"` already starts with `"http"`. So no scheme
  is put in front of it, and it reaches the parser unchanged
  (`src/Launcher.ts:96`).

## Model

| member | source | states |
|---|---|---|
| `Navigation.Clamp` | src/Navigator.ts:18-21 | the clamped index is never negative and lies below a positive count; an index already in range is kept; an index past the end becomes `count - 1`; with no items or a negative index it becomes 0 |
| `Navigation.Key.IsArrow` | src/Navigator.ts:30 | the four arrow keys, whose default scrolling is suppressed; specified through `Navigator.HandleKey`, whose returned flag is exactly this test |
| `Navigation.Offset` | src/Navigator.ts:36-48 | the linear offset of each key (+1 Right, -1 Left, +columns Down, -columns Up, 0 otherwise); specified by `PressMovesByOffsetOrStays`, which shows a move is exactly this offset or none |
| `Navigation.Target` | src/Navigator.ts:34-48 | the candidate `nextIndex` before the boundary check; specified by `PressMovesByOffsetOrStays` and `PressFires`, which say it is taken exactly when it is a tile |
| `Navigation.Press` | src/Navigator.ts:34-58 | one key press as a value; specified by `PressMovesByOffsetOrStays`, `PressFires` and `OtherKeyRefocuses`, and `Navigator.HandleKey` is proved equal to it |
| `Navigation.Run` | src/Navigator.ts:28-58 | a sequence of key presses; specified by `RunKeepsShape`, `RunStaysOnTiles`, `EmptyGridNeverMoves` and `TenTileWalk` |
| `Navigation.PressMovesByOffsetOrStays` | src/Navigator.ts:34-58 | a key never changes the count or the columns; the index either stays or moves by exactly the key's offset (+1, -1, +columns, -columns) onto an existing tile; an out-of-range candidate leaves the state unchanged, with no wrap-around and no clamping |
| `Navigation.PressFires` | src/Navigator.ts:49-58 | a key fires at most one callback; Enter fires `onEnter(currentIndex)` and changes nothing; any other key fires `onFocusChange(new index)` exactly when its candidate is in `[0, itemCount)`, and nothing otherwise |
| `Navigation.OtherKeyRefocuses` | src/Navigator.ts:34-58 | a key that is neither an arrow nor Enter keeps the index and re-fires `onFocusChange(currentIndex)` exactly when that index is a tile; on an empty grid it fires nothing |
| `Navigation.RunKeepsShape` | src/Navigator.ts:28-58 | any sequence of keys leaves `itemCount` and `columns` unchanged |
| `Navigation.RunStaysOnTiles` | src/Navigator.ts:28-58 | from a focused state, any sequence of keys keeps `0 <= currentIndex < itemCount`, and every index passed to either callback is an existing tile |
| `Navigation.EmptyGridNeverMoves` | src/Navigator.ts:55-58 | with no items, no sequence of keys moves the index, and the only callback ever fired is `onEnter` on the unchanged index |
| `Navigation.TenTileWalk` | src/Navigator.ts:34-58 | with 10 tiles, 4 columns and index 0: Up is refused, three Rights reach 3, Down reaches 7, a second Down is refused; focus changes fire for 1, 2, 3 and 7 |
| `Navigation.RightCrossesRowEnd` | src/Navigator.ts:37-58 | the offsets are linear: Right from the last tile of a row (index 3 of 4 columns) lands on index 4 in the next row |
| `Navigation.Navigator.constructor` | src/Navigator.ts:2-4 | a new navigator has index 0, no items, 4 columns and has fired no callback; it satisfies `Invariant` (whenever there are items, the index is one of them) |
| `Navigation.Navigator.SetItems` | src/Navigator.ts:14-22 | sets `itemCount` and `columns` to the arguments; the index becomes the clamped old index, is never negative, is below a positive count, is unchanged when already in range; `Invariant` holds afterwards; no callback fires |
| `Navigation.Navigator.HandleKey` | src/Navigator.ts:28-59 | suppresses the default action exactly for the four arrows; Enter logs `Activate(old index)` and changes no field; otherwise an in-range candidate becomes the index and is logged as one focus change, and an out-of-range one changes nothing; keeps `Invariant` and the grid invariant; equals `Press` |
| `Navigation.Navigator.ResetFocus` | src/Navigator.ts:61-64 | sets the index to 0 and logs `FocusChange(0)` whatever the item count; count and columns unchanged; `Invariant` holds afterwards |
| `ShortcutStore.FindIndex` | src/Launcher.ts:82 | the result is the first position whose id matches, or none when no shortcut has the id |
| `ShortcutStore.Updated` | src/Launcher.ts:81-87 | same length and same id sequence (so the same multiset of ids); the first shortcut with the id is replaced by the new one; no other position changes; with no match the list is unchanged |
| `ShortcutStore.Without` | src/Launcher.ts:89-92 | a shortcut is in the result exactly when it is in the list and its id differs, so no shortcut with the id remains; the result is no longer than the list |
| `ShortcutStore.WithoutConcat` | src/Launcher.ts:90 | the filter keeps the original order: it distributes over concatenation |
| `ShortcutStore.WithoutAbsent` | src/Launcher.ts:90 | removing an id that no shortcut has is the identity |
| `ShortcutStore.WithoutIdempotent` | src/Launcher.ts:90 | removing twice equals removing once |
| `ShortcutStore.WithoutKeepsUnique` | src/Launcher.ts:90 | removal keeps ids unique |
| `ShortcutStore.AppendKeepsUnique` | src/Launcher.ts:76-79 | with unique ids, appending keeps them unique exactly when the new id is fresh (no duplicate check is made) |
| `ShortcutStore.FindAppended` | src/Launcher.ts:76-84 | the lookup by id of a freshly appended shortcut finds it at the last position |
| `ShortcutStore.AddThenUpdate` | src/Launcher.ts:76-87 | an update right after an add, with the added id, replaces exactly the added shortcut |
| `ShortcutStore.AddThenRemove` | src/Launcher.ts:76-92 | removing a freshly added shortcut by its id gives back the list before the add |
| `ShortcutStore.DefaultsHaveIdsOneToFour` | src/Launcher.ts:8-13 | the default list has ids "1", "2", "3", "4" in that order, all distinct |
| `ShortcutStore.DefaultShortcuts` | src/Launcher.ts:8-13 | the four default shortcuts with their titles, URLs and icons; specified by `DefaultsHaveIdsOneToFour` and `LoadedShortcuts` |
| `ShortcutStore.LoadedShortcuts` | src/Launcher.ts:51-62 | a stored list is loaded as it is; with the key absent the list is the four defaults, whose ids are unique |
| `ShortcutStore.LoadedGreeting` | src/Launcher.ts:26-35 | a stored non-empty greeting is loaded as it is; an absent key or an empty string loads as no greeting |
| `ShortcutStore.BackendsAgreeOnGreeting` | src/Launcher.ts:26-45 | the extension store keeps the text as given, and the local store removes the key for an empty text; a later load reads the same greeting from both, which is the saved text, with `""` read as none |
| `ShortcutStore.LocalGreetingEntry` | src/Launcher.ts:42-43 | what the local store keeps after a greeting is saved: the text when non-empty, otherwise the key is removed; specified by `BackendsAgreeOnGreeting` |
| `ShortcutStore.IndexOf` | src/Launcher.ts:104 | the result is the first position where the pattern occurs, or none when it occurs nowhere |
| `ShortcutStore.ReplaceFirst` | src/Launcher.ts:104 | `replace` with a string pattern; specified by `InnerWwwDropped` and `LeadingWwwIgnored`, which show that only the first occurrence is removed and the text around it is kept |
| `ShortcutStore.BeforeFirst` | src/Launcher.ts:104 | the result is the prefix of the text up to the first separator, or the whole text when there is none; it contains no separator |
| `ShortcutStore.UpperAscii` | src/Launcher.ts:105 | a lower-case ASCII letter becomes its upper-case letter; every other character is unchanged |
| `ShortcutStore.Capitalize` | src/Launcher.ts:105 | same length; the first character is upper-cased and the rest is unchanged |
| `ShortcutStore.Normalize` | src/Launcher.ts:96 | the URL handed to the parser always starts with "http"; it is the input itself exactly when the input starts with "http", and "https://" + input otherwise |
| `ShortcutStore.TitleOf` | src/Launcher.ts:104-105 | the title derived from a host name; specified by `TitleIsOneLabel`, `LeadingWwwIgnored`, `InnerWwwDropped` and `ExampleTitle` |
| `ShortcutStore.IconOf` | src/Launcher.ts:100 | the favicon lookup URL for a host, asking for a 128-pixel icon; used by `GetMetadata` and `ExampleDotCom` |
| `ShortcutStore.GetMetadata` | src/Launcher.ts:94-111 | when the parser rejects the normalized URL the result is the fallback (`"Shortcut"`, `"/vite.svg"`), and no error is raised; otherwise the icon is the favicon lookup URL for the host and the title is derived from the host |
| `ShortcutStore.TitleIsOneLabel` | src/Launcher.ts:104-105 | a derived title contains no dot and is no longer than the host name |
| `ShortcutStore.LeadingWwwIgnored` | src/Launcher.ts:104 | with a leading "www." the title is the capitalized first label after it; when the rest holds no other "www.", the leading one does not change the title |
| `ShortcutStore.InnerWwwDropped` | src/Launcher.ts:104 | the first "www." is removed wherever it stands, not only as a leading label; the text around it is kept |
| `ShortcutStore.ExampleTitle` | src/Launcher.ts:104-105 | the host "example.com" is titled "Example" |
| `ShortcutStore.ExampleDotCom` | src/Launcher.ts:94-107 | "example.com" is normalized to "https://example.com"; a parser giving the host "example.com" yields the title "Example" and the favicon URL for that host |
| `ShortcutStore.Launcher.constructor` | src/Launcher.ts:16-17 | a new store has an empty list, no greeting and the given backing store |
| `ShortcutStore.Launcher.LoadGreeting` | src/Launcher.ts:26-35 | the greeting becomes the loaded greeting (absent or empty reads as none) and is returned; nothing else changes |
| `ShortcutStore.Launcher.SaveGreeting` | src/Launcher.ts:37-45 | the in-memory greeting becomes the text, `None` included, and the text is written under the greeting key; the list is unchanged |
| `ShortcutStore.Launcher.GetGreeting` | src/Launcher.ts:47-49 | returns the in-memory greeting, which after `SaveGreeting(t)` is `t` |
| `ShortcutStore.Launcher.LoadShortcuts` | src/Launcher.ts:51-62 | the list becomes the stored list, or the four defaults with ids "1".."4" when nothing is stored, and is returned; the greeting and the store are unchanged |
| `ShortcutStore.Launcher.SaveShortcuts` | src/Launcher.ts:64-70 | the shortcut key is overwritten with the whole list, so a later load gives back exactly that list |
| `ShortcutStore.Launcher.GetShortcuts` | src/Launcher.ts:72-74 | returns the in-memory list |
| `ShortcutStore.Launcher.AddShortcut` | src/Launcher.ts:76-79 | the list becomes the old list plus the new shortcut at the end, and is saved; uniqueness of ids is kept when the new id is fresh |
| `ShortcutStore.Launcher.UpdateShortcut` | src/Launcher.ts:81-87 | the list becomes `Updated(old list, s)` and is saved when a shortcut has the id; with no match neither the list nor the store changes; unique ids stay unique |
| `ShortcutStore.Launcher.RemoveShortcut` | src/Launcher.ts:89-92 | the list becomes `Without(old list, id)` and is saved; unique ids stay unique |

## Left out

- Storage I/O (`chrome.storage.local`, `localStorage`, JSON encoding) is not modelled. The backing store is a value with one optional entry per key. A save writes that value at once, and the asynchronous completion is not modelled. The choice between the two backends is not modelled either: the shortcut key behaves the same in both, and the greeting key is modelled as the extension store writes it. `BackendsAgreeOnGreeting` relates it to the local store.
- A stored value that is not valid JSON is not modelled. In the source, the local-store load then throws and the list keeps its old value.
- The constructor's two fire-and-forget loads (`src/Launcher.ts:21-24`) are not modelled. `Launcher.constructor` leaves the list empty and the greeting absent, which are the field initialisers. Callers then use `LoadShortcuts` and `LoadGreeting`.
- The URL parser (`new URL`) is a function parameter: the host name, or `None` where it throws. Its own parsing, lower-casing and punycode are not modelled.
- UpperAscii: `toUpperCase` is modelled for ASCII letters only. Host names from the parser are ASCII.
- Numbers are unbounded integers. The source's numbers are doubles, but every value in this core is a small integer.
- `window.addEventListener` and `preventDefault` (`src/Navigator.ts:24-32`) are not modelled as calls. `HandleKey` returns the suppress-default flag instead.
- The two callbacks are not run. Each call is recorded as an event in a ghost log, and what they do in the page is not modelled.
- `src/main.ts` is not part of this model. It covers rendering, the modal form, the delete confirmation, the clock and greeting text, and the column breakpoints and item counts passed to `SetItems`.
- The list returned by `getShortcuts` is shared with its caller in the source (array aliasing). This is not modelled, because the caller reads the list again after every change.
