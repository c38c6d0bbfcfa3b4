/** The ProfileEditor component: avatar initials, the array-field editor
    (add with a case-insensitive duplicate check, remove by index) and the
    comma-list text fields. React setters are modelled as returning the new state. */
module ProfileEditor {
  import opened Wrappers
  import opened Text
  import opened ProfileDoc

  /** `word[0]` joined into a string: an empty word contributes nothing (`undefined` joins as ""). */
  function FirstChar(word: string): string {
    if |word| == 0 then "" else [word[0]]
  }

  /** `words.map(word => word[0]).join('')`. */
  function Heads(words: seq<string>): string
    decreases |words|
  {
    if |words| == 0 then "" else FirstChar(words[0]) + Heads(words[1..])
  }

  /** Reference definition: the characters of `s` that are not spaces and start the
      string or follow a space (`atStart` says whether the previous character was a space). */
  function WordStarts(s: string, atStart: bool): string
    decreases |s|
  {
    if |s| == 0 then ""
    else if s[0] == ' ' then WordStarts(s[1..], true)
    else (if atStart then [s[0]] else "") + WordStarts(s[1..], false)
  }

  /** The first characters of the space-separated words are exactly the word starts. */
  lemma {:induction false} HeadsAreWordStarts(s: string)
    ensures Heads(Split(s, ' ')) == WordStarts(s, true)
    ensures Heads(Split(s, ' ')[1..]) == WordStarts(s, false)
    decreases |s|
  {
    if |s| > 0 {
      HeadsAreWordStarts(s[1..]);
      var rest := Split(s[1..], ' ');
      if s[0] == ' ' {
        assert ([""] + rest)[1..] == rest;
      } else {
        var parts := [[s[0]] + rest[0]] + rest[1..];
        assert parts[1..] == rest[1..];
      }
    }
  }

  /** `getInitials(name)`: the first (at most two) word starts of the name, upper-cased. */
  function Initials(name: string): (r: string)
    ensures |r| <= 2
    ensures var starts := Upper(WordStarts(name, true));
            |r| == (if |starts| < 2 then |starts| else 2) && r == starts[..|r|]
  {
    HeadsAreWordStarts(name);
    var s := Upper(Heads(Split(name, ' ')));
    if |s| <= 2 then s else s[..2]
  }

  /** A doubled space separates words exactly as a single one does. */
  lemma {:induction false} DoubleSpaceIgnored(a: string, b: string, atStart: bool)
    ensures WordStarts(a + "  " + b, atStart) == WordStarts(a + " " + b, atStart)
    decreases |a|
  {
    if |a| == 0 {
      assert a + "  " + b == [' '] + ([' '] + b);
      assert a + " " + b == [' '] + b;
      assert ([' '] + ([' '] + b))[1..] == [' '] + b;
      assert ([' '] + b)[1..] == b;
    } else {
      assert (a + "  " + b)[1..] == a[1..] + "  " + b;
      assert (a + " " + b)[1..] == a[1..] + " " + b;
      DoubleSpaceIgnored(a[1..], b, a[0] == ' ');
    }
  }

  /** Empty words (from doubled spaces) contribute nothing to the initials. */
  lemma InitialsIgnoreEmptyWords(a: string, b: string)
    ensures Initials(a + "  " + b) == Initials(a + " " + b)
  {
    DoubleSpaceIgnored(a, b, true);
  }

  /** The default avatar's text: `getInitials(profile.basicInfo.name || 'User')`. */
  function AvatarInitials(name: Option<string>): (r: string)
    ensures (name.None? || name.value == "") ==> r == "U"
    ensures name.Some? && name.value != "" ==> r == Initials(name.value)
  {
    var shown := if name.Some? && name.value != "" then name.value else "User";
    assert Upper(WordStarts("User", true)) == "U";
    Initials(shown)
  }

  /** The editor's own state beside the profile: the pending input and the error
      message of each array field. */
  datatype Editor = Editor(profile: Doc, newItem: map<string, string>, error: map<string, string>)

  /** The array-field editor is only rendered (it calls `value.map`) for a field that holds an array. */
  ghost predicate IsArrayField(doc: Doc, section: string, field: string) {
    section in doc && field in doc[section] && doc[section][field].Items?
  }

  /** `items.some(item => item.toLowerCase() === v.toLowerCase())`. */
  function HasCaseless(items: seq<string>, v: string): (b: bool)
    ensures b <==> exists i :: 0 <= i < |items| && Lower(items[i]) == Lower(v)
    decreases |items|
  {
    if |items| == 0 then false
    else Lower(items[0]) == Lower(v) || HasCaseless(items[1..], v)
  }

  /** No two items are equal ignoring case. */
  ghost predicate CaselessDistinct(items: seq<string>) {
    forall i, j :: 0 <= i < j < |items| ==> Lower(items[i]) != Lower(items[j])
  }

  /** The error text shown for a rejected duplicate. */
  function DuplicateMessage(field: string): string {
    "This " + field + " already exists"
  }

  /** `handleArrayItemAdd(section, field)`. */
  function AddItem(ed: Editor, section: string, field: string): (r: Editor)
    requires IsArrayField(ed.profile, section, field)
    // an empty (or never typed) input does nothing at all
    ensures field !in ed.newItem || ed.newItem[field] == "" ==> r == ed
    // a duplicate, ignoring case, only sets the error
    ensures field in ed.newItem && ed.newItem[field] != ""
            && HasCaseless(ed.profile[section][field].items, Trim(ed.newItem[field]))
            ==> r == ed.(error := ed.error[field := DuplicateMessage(field)])
    // anything else is appended, trimmed, and the input and error are cleared
    ensures field in ed.newItem && ed.newItem[field] != ""
            && !HasCaseless(ed.profile[section][field].items, Trim(ed.newItem[field]))
            ==> && section in r.profile && field in r.profile[section]
                && r.profile[section][field] == Items(ed.profile[section][field].items + [Trim(ed.newItem[field])])
                && r.profile[section].Keys == ed.profile[section].Keys
                && (forall f :: f in ed.profile[section] && f != field ==> r.profile[section][f] == ed.profile[section][f])
                && (forall s :: s in ed.profile && s != section ==> s in r.profile && r.profile[s] == ed.profile[s])
                && r.profile.Keys == ed.profile.Keys
                && r.newItem == ed.newItem[field := ""] && r.error == ed.error[field := ""]
  {
    if field !in ed.newItem || ed.newItem[field] == "" then ed
    else
      var value := Trim(ed.newItem[field]);
      var current := ed.profile[section][field].items;
      if HasCaseless(current, value) then ed.(error := ed.error[field := DuplicateMessage(field)])
      else Editor(SetField(ed.profile, section, field, Items(current + [value])),
                  ed.newItem[field := ""], ed.error[field := ""])
  }

  /** Adding never creates two items that are equal ignoring case. */
  lemma AddKeepsCaselessDistinct(ed: Editor, section: string, field: string)
    requires IsArrayField(ed.profile, section, field)
    requires CaselessDistinct(ed.profile[section][field].items)
    ensures IsArrayField(AddItem(ed, section, field).profile, section, field)
    ensures CaselessDistinct(AddItem(ed, section, field).profile[section][field].items)
  {
    var r := AddItem(ed, section, field);
    var current := ed.profile[section][field].items;
    if field in ed.newItem && ed.newItem[field] != "" && !HasCaseless(current, Trim(ed.newItem[field])) {
      var items := r.profile[section][field].items;
      assert items == current + [Trim(ed.newItem[field])];
      forall i, j | 0 <= i < j < |items| ensures Lower(items[i]) != Lower(items[j]) {
        if j == |current| {
          assert items[i] == current[i];
        } else {
          assert items[i] == current[i] && items[j] == current[j];
        }
      }
    }
  }

  /** `xs.filter((_, i) => i !== index)`. */
  function DropIndex<T>(xs: seq<T>, index: int): (r: seq<T>)
    ensures 0 <= index < |xs| ==> r == xs[..index] + xs[index + 1..]
    ensures !(0 <= index < |xs|) ==> r == xs
    decreases |xs|
  {
    if |xs| == 0 then []
    else
      var n := |xs| - 1;
      var init := DropIndex(xs[..n], index);
      assert xs[..n] + [xs[n]] == xs;
      if n != index then init + [xs[n]] else init
  }

  /** `handleArrayItemRemove(section, field, index)`: the item at `index` is gone, the
      others keep their order; nothing else in the profile changes. */
  function RemoveItem(doc: Doc, section: string, field: string, index: int): (r: Doc)
    requires IsArrayField(doc, section, field)
    ensures IsArrayField(r, section, field)
    ensures 0 <= index < |doc[section][field].items| ==>
              var items := doc[section][field].items;
              r[section][field].items == items[..index] + items[index + 1..]
              && |r[section][field].items| == |items| - 1
    ensures r.Keys == doc.Keys && r[section].Keys == doc[section].Keys
    ensures forall f :: f in doc[section] && f != field ==> r[section][f] == doc[section][f]
    ensures forall s :: s in doc && s != section ==> r[s] == doc[s]
  {
    SetField(doc, section, field, Items(DropIndex(doc[section][field].items, index)))
  }
}
