/** The shortcut store of src/Launcher.ts: an ordered list of shortcuts and a
 *  greeting override, kept in memory and written to a two-key backing store,
 *  plus the derivation of a title and an icon from a URL.
 */
module ShortcutStore {
  import opened Wrappers

  /** A user-defined link; `icon` is optional. */
  datatype Shortcut = Shortcut(id: string, title: string, url: string, icon: Option<string>)

  /** The four shortcuts used when nothing is stored. */
  const DefaultShortcuts: seq<Shortcut> := [
    Shortcut("1", "YouTube", "https://youtube.com", Some("https://www.youtube.com/favicon.ico")),
    Shortcut("2", "Jellyfin", "http://localhost:8096", Some("/favicon.ico")),
    Shortcut("3", "Twitch", "https://twitch.tv", Some("https://www.twitch.tv/favicon.ico")),
    Shortcut("4", "Plex", "https://app.plex.tv", Some("https://www.plex.tv/favicon.ico"))
  ]

  /** The backing key-value store: what is held under the shortcut key and
   *  under the greeting key (`None` when the key is absent). */
  datatype Storage = Storage(shortcuts: Option<seq<Shortcut>>, greeting: Option<string>)

  // ---------------------------------------------------------------------------
  // The list, as values

  /** The ids of a list, in order. */
  function Ids(list: seq<Shortcut>): seq<string> {
    seq(|list|, i requires 0 <= i < |list| => list[i].id)
  }

  /** No two shortcuts share an id. */
  predicate UniqueIds(list: seq<Shortcut>) {
    forall i, j :: 0 <= i < j < |list| ==> list[i].id != list[j].id
  }

  /** `findIndex` by id: the first position holding `id`, if there is one. */
  function FindIndex(list: seq<Shortcut>, id: string): (r: Option<nat>)
    ensures r.Some? ==> r.value < |list| && list[r.value].id == id
    ensures r.Some? ==> forall j :: 0 <= j < r.value ==> list[j].id != id
    ensures r.None? ==> forall j :: 0 <= j < |list| ==> list[j].id != id
  {
    if |list| == 0 then None
    else if list[0].id == id then Some(0)
    else match FindIndex(list[1..], id)
      case None => None
      case Some(i) => Some(i + 1)
  }

  /** The list after `updateShortcut(s)`: the first shortcut with `s.id`
   *  replaced by `s`; the same list when there is none. */
  function Updated(list: seq<Shortcut>, s: Shortcut): (r: seq<Shortcut>)
    ensures |r| == |list| && Ids(r) == Ids(list)
    ensures forall i :: (0 <= i < |list| && list[i].id == s.id
              && (forall j :: 0 <= j < i ==> list[j].id != s.id)) ==> r[i] == s
    ensures forall i :: 0 <= i < |list| && r[i] != list[i] ==>
              list[i].id == s.id && (forall j :: 0 <= j < i ==> list[j].id != s.id)
    ensures (forall i :: 0 <= i < |list| ==> list[i].id != s.id) ==> r == list
  {
    match FindIndex(list, s.id)
    case None => list
    case Some(i) => list[i := s]
  }

  /** The list after `removeShortcut(id)`: the shortcuts whose id is not `id`. */
  function Without(list: seq<Shortcut>, id: string): (r: seq<Shortcut>)
    ensures forall x :: x in r <==> x in list && x.id != id
    ensures |r| <= |list|
  {
    if list == [] then []
    else if list[0].id == id then Without(list[1..], id)
    else [list[0]] + Without(list[1..], id)
  }

  /** Filtering keeps the original order: it distributes over concatenation. */
  lemma {:induction false} WithoutConcat(a: seq<Shortcut>, b: seq<Shortcut>, id: string)
    ensures Without(a + b, id) == Without(a, id) + Without(b, id)
    decreases |a|
  {
    if a != [] {
      assert (a + b)[0] == a[0];
      assert (a + b)[1..] == a[1..] + b;
      WithoutConcat(a[1..], b, id);
      if a[0].id == id {
        assert Without(a + b, id) == Without(a[1..] + b, id);
      } else {
        assert Without(a + b, id) == [a[0]] + Without(a[1..] + b, id);
      }
    } else {
      assert a + b == b;
    }
  }

  /** Removing an id that no shortcut has changes nothing. */
  lemma {:induction false} WithoutAbsent(list: seq<Shortcut>, id: string)
    requires forall i :: 0 <= i < |list| ==> list[i].id != id
    ensures Without(list, id) == list
    decreases |list|
  {
    if list != [] {
      WithoutAbsent(list[1..], id);
    }
  }

  /** Removing twice is removing once. */
  lemma WithoutIdempotent(list: seq<Shortcut>, id: string)
    ensures Without(Without(list, id), id) == Without(list, id)
  {
    var once := Without(list, id);
    forall i | 0 <= i < |once| ensures once[i].id != id {
      assert once[i] in once;
    }
    WithoutAbsent(once, id);
  }

  /** Removing keeps the ids unique. */
  lemma {:induction false} WithoutKeepsUnique(list: seq<Shortcut>, id: string)
    requires UniqueIds(list)
    ensures UniqueIds(Without(list, id))
    decreases |list|
  {
    if list != [] {
      WithoutKeepsUnique(list[1..], id);
      var rest := Without(list[1..], id);
      forall x | x in rest ensures x.id != list[0].id {
        var k :| 0 <= k < |list[1..]| && list[1..][k] == x;
        assert list[k + 1] == x;
      }
    }
  }

  /** With unique ids, appending keeps them unique exactly when the new id is fresh. */
  lemma AppendKeepsUnique(list: seq<Shortcut>, s: Shortcut)
    requires UniqueIds(list)
    ensures UniqueIds(list + [s]) <==> s.id !in Ids(list)
  {
    var l := list + [s];
    if s.id in Ids(list) {
      var k :| 0 <= k < |list| && Ids(list)[k] == s.id;
      assert l[k].id == l[|list|].id;
    } else {
      forall i, j | 0 <= i < j < |l| ensures l[i].id != l[j].id {
        if j == |list| {
          assert Ids(list)[i] == l[i].id;
        }
      }
    }
  }

  /** An id outside `Ids(list)` is the id of no shortcut in the list. */
  lemma FreshIdAbsent(list: seq<Shortcut>, id: string)
    requires id !in Ids(list)
    ensures forall j :: 0 <= j < |list| ==> list[j].id != id
  {
    forall j | 0 <= j < |list| ensures list[j].id != id {
      assert Ids(list)[j] == list[j].id;
    }
  }

  /** A freshly added shortcut is the one `updateShortcut` finds by its id, so
   *  an update right after an add replaces exactly the added shortcut. */
  lemma AddThenUpdate(list: seq<Shortcut>, s: Shortcut, t: Shortcut)
    requires s.id !in Ids(list) && t.id == s.id
    ensures FindIndex(list + [s], s.id) == Some(|list|)
    ensures Updated(list + [s], t) == list + [t]
  {
    FindAppended(list, s);
    assert (list + [s])[|list| := t] == list + [t];
  }

  /** The position `findIndex` reports for the id of a shortcut just appended. */
  lemma {:induction false} FindAppended(list: seq<Shortcut>, s: Shortcut)
    requires s.id !in Ids(list)
    ensures FindIndex(list + [s], s.id) == Some(|list|)
    decreases |list|
  {
    if list != [] {
      assert Ids(list)[0] == list[0].id;
      assert Ids(list[1..]) == Ids(list)[1..];
      assert (list + [s])[1..] == list[1..] + [s];
      FindAppended(list[1..], s);
    }
  }

  /** Removing a freshly added shortcut by its id undoes the add. */
  lemma AddThenRemove(list: seq<Shortcut>, s: Shortcut)
    requires s.id !in Ids(list)
    ensures Without(list + [s], s.id) == list
  {
    WithoutConcat(list, [s], s.id);
    FreshIdAbsent(list, s.id);
    WithoutAbsent(list, s.id);
    assert Without([s], s.id) == [];
  }

  /** The default list: four shortcuts with the distinct ids "1" to "4", in order. */
  lemma DefaultsHaveIdsOneToFour()
    ensures Ids(DefaultShortcuts) == ["1", "2", "3", "4"]
    ensures UniqueIds(DefaultShortcuts)
  {
  }

  // ---------------------------------------------------------------------------
  // Loading from the backing store

  /** The list a load leaves in memory: the stored list, or the defaults when
   *  the key is absent. */
  function LoadedShortcuts(stored: Option<seq<Shortcut>>): (r: seq<Shortcut>)
    ensures stored.Some? ==> r == stored.value
    ensures stored.None? ==> |r| == 4 && UniqueIds(r)
  {
    stored.GetOr(DefaultShortcuts)
  }

  /** The greeting a load leaves in memory: the stored text, with an absent
   *  key and an empty text both read as no greeting. */
  function LoadedGreeting(stored: Option<string>): (r: Option<string>)
    ensures r.Some? ==> r == stored && r.value != ""
    ensures stored.Some? && stored.value != "" ==> r == stored
  {
    if stored.Some? && stored.value != "" then stored else None
  }

  /** What the browser-local fallback store holds after a greeting is saved:
   *  the text when it is non-empty, otherwise the key is removed. */
  function LocalGreetingEntry(text: Option<string>): Option<string> {
    if text.Some? && text.value != "" then text else None
  }

  /** The two backends differ in what they keep for an empty greeting, but
   *  every later load reads the same greeting from either. */
  lemma BackendsAgreeOnGreeting(text: Option<string>)
    ensures LoadedGreeting(LocalGreetingEntry(text)) == LoadedGreeting(text)
    ensures LoadedGreeting(text) == (if text == Some("") then None else text)
  {
  }

  // ---------------------------------------------------------------------------
  // Title and icon derivation

  /** A derived title and icon. */
  datatype Metadata = Metadata(title: string, icon: string)

  /** Returned when the URL cannot be parsed. */
  const FallbackMetadata := Metadata("Shortcut", "/vite.svg")

  /** `pat` occurs in `s` at position `i`. */
  predicate OccursAt(s: string, pat: string, i: int) {
    0 <= i && i + |pat| <= |s| && s[i..i + |pat|] == pat
  }

  /** `indexOf`: the first position where `pat` occurs in `s`. */
  function IndexOf(s: string, pat: string): (r: Option<nat>)
    ensures r.Some? ==> OccursAt(s, pat, r.value)
    ensures r.Some? ==> forall j :: 0 <= j < r.value ==> !OccursAt(s, pat, j)
    ensures r.None? ==> forall j :: !OccursAt(s, pat, j)
    decreases |s|
  {
    if |s| < |pat| then None
    else if s[..|pat|] == pat then Some(0)
    else match IndexOf(s[1..], pat)
      case None =>
        assert forall j :: OccursAt(s, pat, j) ==> j == 0 || OccursAt(s[1..], pat, j - 1);
        None
      case Some(i) =>
        assert forall j :: 0 < j ==> OccursAt(s, pat, j) == OccursAt(s[1..], pat, j - 1);
        Some(i + 1)
  }

  /** String `replace` with a string pattern: only the first occurrence. */
  function ReplaceFirst(s: string, pat: string, replacement: string): string {
    match IndexOf(s, pat)
    case None => s
    case Some(i) => s[..i] + replacement + s[i + |pat|..]
  }

  /** `split(c)[0]`: the text before the first `c`, or all of `s`. */
  function BeforeFirst(s: string, c: char): (r: string)
    ensures r <= s && c !in r
    ensures |r| < |s| ==> s[|r|] == c
  {
    if s == [] then []
    else if s[0] == c then []
    else [s[0]] + BeforeFirst(s[1..], c)
  }

  /** The text before the first `c` is everything before its first position. */
  lemma BeforeFirstAt(s: string, c: char, k: nat)
    requires k < |s| && s[k] == c
    requires forall i :: 0 <= i < k ==> s[i] != c
    ensures BeforeFirst(s, c) == s[..k]
  {
  }

  /** `toUpperCase` on one character, for ASCII letters. */
  function UpperAscii(c: char): (r: char)
    ensures 'a' <= c <= 'z' ==> 'A' <= r <= 'Z' && r as int == c as int - 32
    ensures !('a' <= c <= 'z') ==> r == c
  {
    if 'a' <= c <= 'z' then (c as int - 32) as char else c
  }

  /** `charAt(0).toUpperCase() + slice(1)`. */
  function Capitalize(s: string): (r: string)
    ensures |r| == |s|
    ensures |s| > 0 ==> r[0] == UpperAscii(s[0]) && r[1..] == s[1..]
  {
    if s == [] then [] else [UpperAscii(s[0])] + s[1..]
  }

  /** The title derived from a host name: drop the first "www.", keep the text
   *  before the first dot, upper-case its first letter. */
  function TitleOf(host: string): string {
    Capitalize(BeforeFirst(ReplaceFirst(host, "www.", ""), '.'))
  }

  /** The icon URL: the favicon lookup service, asked for a 128-pixel icon. */
  function IconOf(host: string): string {
    "https://www.google.com/s2/favicons?domain=" + host + "&sz=128"
  }

  /** The URL handed to the parser: "https://" is put in front exactly when
   *  the input does not already start with "http". */
  function Normalize(urlStr: string): (r: string)
    ensures "http" <= r
    ensures r == urlStr <==> "http" <= urlStr
    ensures r != urlStr ==> r == "https://" + urlStr
  {
    if "http" <= urlStr then urlStr else "https://" + urlStr
  }

  /** `getMetadata`. `hostOf` stands for the URL parser: the host name of a
   *  URL, or `None` where the parser throws. */
  function GetMetadata(urlStr: string, hostOf: string -> Option<string>): (r: Metadata)
    ensures hostOf(Normalize(urlStr)).None? ==> r == FallbackMetadata
    ensures hostOf(Normalize(urlStr)).Some? ==>
              r.icon == IconOf(hostOf(Normalize(urlStr)).value)
              && r.title == TitleOf(hostOf(Normalize(urlStr)).value)
  {
    match hostOf(Normalize(urlStr))
    case None => FallbackMetadata
    case Some(host) => Metadata(TitleOf(host), IconOf(host))
  }

  /** A title never contains a dot and is never longer than the host name. */
  lemma TitleIsOneLabel(host: string)
    ensures '.' !in TitleOf(host)
    ensures |TitleOf(host)| <= |host|
  {
  }

  /** A leading "www." is always the occurrence dropped, so the title is the
   *  first label after it; when the rest has no "www." of its own, the
   *  leading one does not change the title. */
  lemma LeadingWwwIgnored(host: string)
    ensures TitleOf("www." + host) == Capitalize(BeforeFirst(host, '.'))
    ensures (forall j :: !OccursAt(host, "www.", j)) ==> TitleOf("www." + host) == TitleOf(host)
  {
    assert OccursAt("www." + host, "www.", 0);
    assert ReplaceFirst("www." + host, "www.", "") == host;
  }

  /** The first "www." is dropped wherever it stands, not only as a leading
   *  label: in "ab-www.x.com" it is the "www." after "ab-". */
  lemma InnerWwwDropped(before: string, after: string)
    requires forall j :: 0 <= j < |before| ==> !OccursAt(before + "www." + after, "www.", j)
    ensures ReplaceFirst(before + "www." + after, "www.", "") == before + after
  {
    var s := before + "www." + after;
    assert s[|before|..|before| + 4] == "www.";
    IndexOfAt(s, "www.", |before|);
    assert s[..|before|] == before;
    assert s[|before| + 4..] == after;
  }

  /** The first occurrence is the one `IndexOf` reports. */
  lemma IndexOfAt(s: string, pat: string, k: nat)
    requires OccursAt(s, pat, k)
    requires forall j :: 0 <= j < k ==> !OccursAt(s, pat, j)
    ensures IndexOf(s, pat) == Some(k)
  {
  }

  /** "example.com" becomes "https://example.com" and, parsed to the host
   *  "example.com", is titled "Example" with that host's favicon lookup. */
  lemma ExampleDotCom(hostOf: string -> Option<string>)
    requires hostOf("https://example.com") == Some("example.com")
    ensures GetMetadata("example.com", hostOf)
            == Metadata("Example", IconOf("example.com"))
  {
    var h := "example.com";
    assert h[..4][0] == 'e';
    assert Normalize(h) == "https://example.com";
    ExampleTitle();
  }

  /** The host "example.com" is titled "Example". */
  lemma ExampleTitle()
    ensures TitleOf("example.com") == "Example"
  {
    NoFirstCharNoOccurrence("example.com", "www.");
    ExampleLabel();
    assert Capitalize("example") == "Example";
  }

  /** The first label of "example.com" is "example". */
  lemma ExampleLabel()
    ensures BeforeFirst("example.com", '.') == "example"
  {
    assert "example.com" == "example" + "." + "com";
    BeforeFirstOfLabel("example", '.', "com");
  }

  /** A pattern whose first character is not in `s` does not occur in `s`. */
  lemma NoFirstCharNoOccurrence(s: string, pat: string)
    requires |pat| > 0 && pat[0] !in s
    ensures IndexOf(s, pat) == None
  {
  }

  /** The text before the first `c` of `first + [c] + rest`, when `c` is not
   *  in `first`, is `first`. */
  lemma BeforeFirstOfLabel(first: string, c: char, rest: string)
    requires c !in first
    ensures BeforeFirst(first + [c] + rest, c) == first
  {
    var s := first + [c] + rest;
    BeforeFirstAt(s, c, |first|);
    assert s[..|first|] == first;
  }

  // ---------------------------------------------------------------------------
  // The store object

  /** The `Launcher` object: the in-memory list and greeting, and the backing
   *  store they are written to. */
  class Launcher {
    var shortcuts: seq<Shortcut>
    var customGreeting: Option<string>
    var backing: Storage

    /** A launcher over a backing store with the given contents; nothing is
     *  loaded yet. */
    constructor (backing: Storage)
      ensures shortcuts == [] && customGreeting == None && this.backing == backing
    {
      shortcuts := [];
      customGreeting := None;
      this.backing := backing;
    }

    /** Reads the greeting key; an absent or empty value reads as no greeting. */
    method LoadGreeting() returns (greeting: Option<string>)
      modifies this
      ensures customGreeting == LoadedGreeting(backing.greeting) && greeting == customGreeting
      ensures shortcuts == old(shortcuts) && backing == old(backing)
    {
      var stored := backing.greeting;
      if stored.Some? && stored.value != "" {
        customGreeting := stored;
      } else {
        customGreeting := None;
      }
      greeting := customGreeting;
    }

    /** Sets the greeting and writes it to the greeting key. */
    method SaveGreeting(text: Option<string>)
      modifies this
      ensures customGreeting == text
      ensures backing == old(backing).(greeting := text)
      ensures shortcuts == old(shortcuts)
    {
      customGreeting := text;
      backing := backing.(greeting := customGreeting);
    }

    /** The greeting held in memory. */
    method GetGreeting() returns (greeting: Option<string>)
      ensures greeting == customGreeting
    {
      greeting := customGreeting;
    }

    /** Reads the shortcut key, falling back to the four defaults. */
    method LoadShortcuts() returns (list: seq<Shortcut>)
      modifies this
      ensures shortcuts == LoadedShortcuts(backing.shortcuts) && list == shortcuts
      ensures backing.shortcuts.None? ==> Ids(shortcuts) == ["1", "2", "3", "4"]
      ensures customGreeting == old(customGreeting) && backing == old(backing)
    {
      DefaultsHaveIdsOneToFour();
      match backing.shortcuts {
        case Some(stored) =>
          shortcuts := stored;
        case None =>
          shortcuts := DefaultShortcuts;
      }
      list := shortcuts;
    }

    /** Overwrites the shortcut key with the whole list. */
    method SaveShortcuts()
      modifies this
      ensures backing == old(backing).(shortcuts := Some(shortcuts))
      ensures shortcuts == old(shortcuts) && customGreeting == old(customGreeting)
      ensures LoadedShortcuts(backing.shortcuts) == shortcuts
    {
      backing := backing.(shortcuts := Some(shortcuts));
    }

    /** The list held in memory. */
    method GetShortcuts() returns (list: seq<Shortcut>)
      ensures list == shortcuts
    {
      list := shortcuts;
    }

    /** Appends a shortcut (no duplicate-id check) and saves the list. */
    method AddShortcut(s: Shortcut)
      modifies this
      ensures shortcuts == old(shortcuts) + [s]
      ensures backing == old(backing).(shortcuts := Some(shortcuts))
      ensures customGreeting == old(customGreeting)
      ensures UniqueIds(old(shortcuts)) && s.id !in Ids(old(shortcuts)) ==> UniqueIds(shortcuts)
    {
      shortcuts := shortcuts + [s];
      SaveShortcuts();
      if UniqueIds(old(shortcuts)) {
        AppendKeepsUnique(old(shortcuts), s);
      }
    }

    /** Replaces the first shortcut with the same id and saves the list; does
     *  nothing at all when no shortcut has that id. */
    method UpdateShortcut(s: Shortcut)
      modifies this
      ensures shortcuts == Updated(old(shortcuts), s)
      ensures FindIndex(old(shortcuts), s.id).Some? ==>
                backing == old(backing).(shortcuts := Some(shortcuts))
      ensures FindIndex(old(shortcuts), s.id).None? ==>
                shortcuts == old(shortcuts) && backing == old(backing)
      ensures customGreeting == old(customGreeting)
      ensures UniqueIds(old(shortcuts)) ==> UniqueIds(shortcuts)
    {
      var index := FindIndex(shortcuts, s.id);
      if index.Some? {
        shortcuts := shortcuts[index.value := s];
        SaveShortcuts();
      }
    }

    /** Drops every shortcut with the given id and saves the list. */
    method RemoveShortcut(id: string)
      modifies this
      ensures shortcuts == Without(old(shortcuts), id)
      ensures backing == old(backing).(shortcuts := Some(shortcuts))
      ensures customGreeting == old(customGreeting)
      ensures UniqueIds(old(shortcuts)) ==> UniqueIds(shortcuts)
    {
      shortcuts := Without(shortcuts, id);
      SaveShortcuts();
      if UniqueIds(old(shortcuts)) {
        WithoutKeepsUnique(old(shortcuts), id);
      }
    }
  }
}
