/** The front end's profile object: a JavaScript object of sections, each an
    object of fields whose values are strings or arrays of strings. Shared by
    ProfileEditor, FacultyProfile and AlumniProfile. */
module ProfileDoc {
  import opened Wrappers
  import opened Text

  /** A field value; `Array.isArray(v)` is `v.Items?`. */
  datatype Value = Str(text: string) | Items(items: seq<string>)

  type Section = map<string, Value>
  type Doc = map<string, Section>

  /** `doc[section]` spread into a new object; a missing section spreads as `{}`. */
  function SectionOf(doc: Doc, section: string): Section {
    if section in doc then doc[section] else map[]
  }

  /** `{...doc, [section]: {...doc[section], [field]: v}}`: exactly one field of one
      section takes the new value; every other field and every other section keeps its value. */
  function SetField(doc: Doc, section: string, field: string, v: Value): (r: Doc)
    ensures r.Keys == doc.Keys + {section}
    ensures r[section].Keys == SectionOf(doc, section).Keys + {field}
    ensures r[section][field] == v
    ensures forall f :: f in SectionOf(doc, section) && f != field ==> r[section][f] == SectionOf(doc, section)[f]
    ensures forall s :: s in doc && s != section ==> r[s] == doc[s]
  {
    doc[section := SectionOf(doc, section)[field := v]]
  }

  /** `{...prev, ...loaded}`: every section the loaded profile has replaces the
      previous one wholesale; every other section keeps its previous value. */
  function Merge(prev: Doc, loaded: Doc): (r: Doc)
    ensures r.Keys == prev.Keys + loaded.Keys
    ensures forall s :: s in loaded ==> r[s] == loaded[s]
    ensures forall s :: s in prev && s !in loaded ==> r[s] == prev[s]
  {
    prev + loaded
  }

  /** The merge is shallow: a field the defaults have but the loaded section lacks is gone. */
  lemma MergeIsShallow(prev: Doc, loaded: Doc, section: string, field: string)
    requires section in prev && field in prev[section]
    requires section in loaded && field !in loaded[section]
    ensures field !in Merge(prev, loaded)[section]
  {
  }

  /** The load effect: `if (user?.profile) setProfile(prev => ({...prev, ...user.profile}))`. */
  function LoadProfile(prev: Doc, userProfile: Option<Doc>): (r: Doc)
    ensures userProfile.None? ==> r == prev
    ensures userProfile.Some? ==> r.Keys == prev.Keys + userProfile.value.Keys
    ensures userProfile.Some? ==> forall s :: s in userProfile.value ==> r[s] == userProfile.value[s]
    ensures userProfile.Some? ==> forall s :: s in prev && s !in userProfile.value ==> r[s] == prev[s]
  {
    match userProfile
    case None => prev
    case Some(p) => Merge(prev, p)
  }

  /** What the save request can come back with: a response (`res.ok` or not) or a thrown fetch. */
  datatype SaveReply = Responded(ok: bool) | FetchFailed

  /** `if (res.ok) setIsEditing(false)`; a failed response or a thrown fetch keeps the mode. */
  function AfterSave(editing: bool, reply: SaveReply): (stillEditing: bool)
    ensures reply == Responded(true) ==> !stillEditing
    ensures reply != Responded(true) ==> stillEditing == editing
  {
    match reply
    case Responded(ok) => if ok then false else editing
    case FetchFailed => editing
  }

  /** `parts.map(item => item.trim())`. */
  function TrimAll(parts: seq<string>): (r: seq<string>)
    ensures |r| == |parts|
    ensures forall k :: 0 <= k < |r| ==> r[k] == Trim(parts[k])
  {
    seq(|parts|, i requires 0 <= i < |parts| => Trim(parts[i]))
  }

  /** Comma-list input: `input.split(',').map(item => item.trim())`. */
  function ParseCommaList(input: string): (items: seq<string>)
    ensures |items| >= 1
    ensures forall k :: 0 <= k < |items| ==> ',' !in items[k]
    ensures forall k :: 0 <= k < |items| ==> items[k] == [] || (!IsSpace(items[k][0]) && !IsSpace(items[k][|items[k]| - 1]))
  {
    var parts := Split(input, ',');
    var items := TrimAll(parts);
    forall k | 0 <= k < |items| ensures ',' !in items[k] {
      TrimSubset(parts[k]);
    }
    items
  }

  /** Comma-list display: `items.join(', ')`. */
  function ShowCommaList(items: seq<string>): string {
    Join(items, ", ")
  }

  /** An item the comma codec can carry: no comma and no outer white space. */
  ghost predicate CleanItem(item: string) {
    ',' !in item && (item == [] || (!IsSpace(item[0]) && !IsSpace(item[|item| - 1])))
  }

  /** Two piece lists that differ at most in the first piece, whose trims agree, trim alike. */
  lemma TrimAllSameTail(p: seq<string>, q: seq<string>)
    requires |p| == |q| >= 1 && Trim(p[0]) == Trim(q[0]) && p[1..] == q[1..]
    ensures TrimAll(p) == TrimAll(q)
  {
    assert forall k :: 0 < k < |q| ==> q[k] == q[1..][k - 1] == p[k];
  }

  /** A space right after a comma never reaches the parsed items. */
  lemma ParseAfterSpace(rest: string)
    ensures ParseCommaList([' '] + rest) == ParseCommaList(rest)
  {
    var p := Split(rest, ',');
    SplitAfterPlainPrefix([' '], rest, ',');
    var q := Split([' '] + rest, ',');
    TrimDropsLeadingSpace(' ', p[0]);
    TrimAllSameTail(p, q);
  }

  /** `trim` distributes over a leading piece. */
  lemma TrimAllCons(head: string, tail: seq<string>)
    ensures TrimAll([head] + tail) == [Trim(head)] + TrimAll(tail)
  {
    var l, r := TrimAll([head] + tail), [Trim(head)] + TrimAll(tail);
    assert |l| == |r|;
    forall k | 0 <= k < |l| ensures l[k] == r[k] {
      if k > 0 {
        assert ([head] + tail)[k] == tail[k - 1];
      }
    }
  }

  /** Splitting `item, rest` where `item` has no comma puts `item` first. */
  lemma SplitAfterItem(item: string, rest: string)
    requires ',' !in item
    ensures Split(item + [','] + rest, ',') == [item] + Split(rest, ',')
  {
    var after := [','] + rest;
    assert item + [','] + rest == item + after;
    SplitAfterPlainPrefix(item, after, ',');
    SplitAfterSeparator(rest, ',');
    var q := Split(after, ',');
    assert q == [""] + Split(rest, ',');
    assert q[0] == "" && q[1..] == Split(rest, ',');
    assert item + q[0] == item;
  }

  lemma ParseAfterItem(item: string, rest: string)
    requires ',' !in item
    ensures ParseCommaList(item + [','] + rest) == [Trim(item)] + ParseCommaList(rest)
  {
    SplitAfterItem(item, rest);
    TrimAllCons(item, Split(rest, ','));
  }

  /** The display of a list of two or more items: the first item, ", ", the rest. */
  lemma ShowCommaListCons(items: seq<string>)
    requires |items| >= 2
    ensures ShowCommaList(items) == items[0] + [','] + ([' '] + ShowCommaList(items[1..]))
  {
    assert ShowCommaList(items) == items[0] + ", " + ShowCommaList(items[1..]);
  }

  /** A single clean item displays as itself and reads back as itself. */
  lemma CommaListSingle(item: string)
    requires CleanItem(item)
    ensures ParseCommaList(ShowCommaList([item])) == [item]
  {
    TrimIdentity(item);
    SplitAfterPlainPrefix(item, "", ',');
    assert item + "" == item;
  }

  /** One more clean item in front of a list that reads back reads back too. */
  lemma CommaListStep(items: seq<string>)
    requires |items| >= 2 && CleanItem(items[0])
    requires ParseCommaList(ShowCommaList(items[1..])) == items[1..]
    ensures ParseCommaList(ShowCommaList(items)) == items
  {
    var head, tail := items[0], items[1..];
    var rest := ShowCommaList(tail);
    ShowCommaListCons(items);
    ParseAfterItem(head, [' '] + rest);
    ParseAfterSpace(rest);
    TrimIdentity(head);
    HeadTail(items);
  }

  lemma HeadTail(items: seq<string>)
    requires |items| >= 1
    ensures items == [items[0]] + items[1..]
  {
  }

  /** Editing a list field with exactly what it displays gives the same list back,
      for a non-empty list of clean items. */
  lemma {:induction false} CommaListRoundTrip(items: seq<string>)
    requires |items| >= 1
    requires forall k :: 0 <= k < |items| ==> CleanItem(items[k])
    ensures ParseCommaList(ShowCommaList(items)) == items
    decreases |items|
  {
    if |items| == 1 {
      assert items == [items[0]];
      CommaListSingle(items[0]);
    } else {
      var tail := items[1..];
      assert forall k :: 0 <= k < |tail| ==> tail[k] == items[k + 1];
      CommaListRoundTrip(tail);
      CommaListStep(items);
    }
  }

  /** The edit handler of a field rendered as a text input: a field that currently
      holds an array is read back as a comma list, any other field takes the raw text. */
  function EditCommaField(doc: Doc, section: string, field: string, input: string): (r: Doc)
    ensures r.Keys == doc.Keys + {section}
    ensures r[section].Keys == SectionOf(doc, section).Keys + {field}
    ensures forall s :: s in doc && s != section ==> r[s] == doc[s]
    ensures forall f :: f in SectionOf(doc, section) && f != field ==> r[section][f] == SectionOf(doc, section)[f]
    ensures field in SectionOf(doc, section) && SectionOf(doc, section)[field].Items?
            ==> r[section][field] == Items(ParseCommaList(input))
    ensures !(field in SectionOf(doc, section) && SectionOf(doc, section)[field].Items?)
            ==> r[section][field] == Str(input)
  {
    var current := SectionOf(doc, section);
    if field in current && current[field].Items? then SetField(doc, section, field, Items(ParseCommaList(input)))
    else SetField(doc, section, field, Str(input))
  }

  /** Typing back exactly what a list field displays leaves the profile unchanged,
      for a non-empty list of clean items. */
  lemma EditCommaFieldRoundTrip(doc: Doc, section: string, field: string, items: seq<string>)
    requires section in doc && field in doc[section] && doc[section][field] == Items(items)
    requires |items| >= 1 && forall k :: 0 <= k < |items| ==> CleanItem(items[k])
    ensures EditCommaField(doc, section, field, ShowCommaList(items)) == doc
  {
    CommaListRoundTrip(items);
    SetFieldSame(doc, section, field, Items(items));
  }

  /** Writing a field's current value back leaves the document unchanged. */
  lemma SetFieldSame(doc: Doc, section: string, field: string, v: Value)
    requires section in doc && field in doc[section] && doc[section][field] == v
    ensures SetField(doc, section, field, v) == doc
  {
    assert doc[section][field := v] == doc[section];
  }

  /** An empty list displays as "" and is read back as one empty item. */
  lemma EmptyCommaListReadsBackBlank()
    ensures ParseCommaList(ShowCommaList([])) == [""]
  {
  }

  /** Newline-list input: `input.split('\n')`, no trimming. */
  function ParseLines(input: string): (items: seq<string>)
    ensures |items| >= 1
    ensures forall k :: 0 <= k < |items| ==> '\n' !in items[k]
  {
    Split(input, '\n')
  }

  /** Newline-list display: `items.join('\n')`. */
  function ShowLines(items: seq<string>): string {
    Join(items, "\n")
  }

  /** The newline codec is an exact inverse on non-empty lists of single-line items ... */
  lemma LinesRoundTrip(items: seq<string>)
    requires |items| >= 1
    requires forall k :: 0 <= k < |items| ==> '\n' !in items[k]
    ensures ParseLines(ShowLines(items)) == items
  {
    SplitJoin(items, '\n');
  }

  /** ... and displaying what was typed reproduces the text exactly. */
  lemma LinesShowParse(input: string)
    ensures ShowLines(ParseLines(input)) == input
  {
    JoinSplit(input, '\n');
  }
}
