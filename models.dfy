/** The per-kind rules of the Popolo models: name history, Twitter handles, duplicate
    removal, and membership identity and dates. */
module Models {
  import opened Wrappers
  import opened Json
  import opened Text
  import opened ApproxDates
  import opened Base

  // ---------------------------------------------------------------- name history

  /** The fallbacks for a missing start and end of a name's validity window. */
  const EarliestText := "0001-01-01"
  const LatestText := "9999-12-31"

  /** A value read as a date string: text when it is truthy. */
  predicate TextOrFalsy(v: Value) {
    Truthy(v) ==> v.Str?
  }

  /** `v or fallback` for such a value. */
  function TextOr(v: Value, fallback: string): string
    requires TextOrFalsy(v)
  {
    if Truthy(v) then v.s else fallback
  }

  /** `_is_name_current_at` can compare its bounds with `date` without a TypeError: the
      start is text or falsy, and so is the end whenever the start test passes (the end
      is not compared otherwise, as `and` stops early). */
  predicate Comparable(name: Data, date: string) {
    && TextOrFalsy(Get(name, "start_date"))
    && (StrLe(TextOr(Get(name, "start_date"), EarliestText), date) ==> TextOrFalsy(Get(name, "end_date")))
  }

  /** `_is_name_current_at`: the start and end bounds compare inclusively, as strings. A
      name current at some date has a window whose start is not after its end. */
  predicate IsNameCurrentAt(name: Data, date: string)
    requires Comparable(name, date)
    ensures IsNameCurrentAt(name, date) ==>
      && StrLe(TextOr(Get(name, "start_date"), EarliestText), date)
      && StrLe(TextOr(Get(name, "start_date"), EarliestText), TextOr(Get(name, "end_date"), LatestText))
  {
    var lo := TextOr(Get(name, "start_date"), EarliestText);
    StrLe(lo, date)
    && var hi := TextOr(Get(name, "end_date"), LatestText);
       assert StrLe(date, hi) ==> StrLe(lo, hi) by {
         if StrLe(date, hi) {
           StrLeTrans(lo, date, hi);
         }
       }
       StrLe(date, hi)
  }

  /** A stored bound that is the ISO text of `d`, or is absent and stands for `fallback`. */
  predicate StoredDay(v: Value, d: Date, fallback: Date) {
    ValidDate(d) && (v == Str(Iso(d)) || (!Truthy(v) && d == fallback))
  }

  lemma SentinelTexts()
    ensures Iso(MinDate) == EarliestText && Iso(MaxDate) == LatestText
  {
    assert Digits(1, 4) == "0001";
    assert Digits(1, 2) == "01";
    assert Digits(9999, 4) == "9999";
    assert Digits(12, 2) == "12";
    assert Digits(31, 2) == "31";
  }

  /** On ISO dates, the string window test is the calendar window test, with a missing
      start meaning 0001-01-01 and a missing end 9999-12-31. */
  lemma NameWindowByDate(name: Data, start: Date, end: Date, d: Date)
    requires ValidDate(d)
    requires StoredDay(Get(name, "start_date"), start, MinDate)
    requires StoredDay(Get(name, "end_date"), end, MaxDate)
    ensures Comparable(name, Iso(d))
    ensures IsNameCurrentAt(name, Iso(d)) <==> DateLe(start, d) && DateLe(d, end)
  {
    SentinelTexts();
    IsoOrder(start, d);
    IsoOrder(d, end);
  }

  /** Every entry is a dictionary, so `n.get` is defined on it. */
  predicate AllDicts(names: seq<Value>) {
    forall i :: 0 <= i < |names| ==> names[i].Obj?
  }

  /** Every entry is a dictionary whose bounds can be compared with `date`. */
  predicate NamesComparable(names: seq<Value>, date: string) {
    forall i :: 0 <= i < |names| ==> names[i].Obj? && Comparable(names[i].fields, date)
  }

  /** An other_names entry with a truthy end date. */
  predicate IsHistoric(v: Value)
    requires v.Obj?
  {
    Truthy(Get(v.fields, "end_date"))
  }

  /** Every entry is a dictionary, and the historic ones can be compared with `date`. */
  predicate HistoricComparable(names: seq<Value>, date: string) {
    forall i :: 0 <= i < |names| ==> names[i].Obj? && (IsHistoric(names[i]) ==> Comparable(names[i].fields, date))
  }

  /** `[n for n in other_names if n.get('end_date')]`. */
  function HistoricNames(names: seq<Value>): (r: seq<Value>)
    requires AllDicts(names)
    ensures AllDicts(r) && |r| <= |names|
    ensures forall x :: x in r <==> x in names && IsHistoric(x)
  {
    if names == [] then []
    else (if IsHistoric(names[0]) then [names[0]] else []) + HistoricNames(names[1..])
  }

  /** `[n for n in names if _is_name_current_at(n, date)]`. */
  function NamesAt(names: seq<Value>, date: string): (r: seq<Value>)
    requires NamesComparable(names, date)
    ensures NamesComparable(r, date) && |r| <= |names|
    ensures forall x :: x in r <==> x in names && IsNameCurrentAt(x.fields, date)
  {
    if names == [] then []
    else (if IsNameCurrentAt(names[0].fields, date) then [names[0]] else []) + NamesAt(names[1..], date)
  }

  /** The names `name_at` chooses among, in one pass: historic and current at `date`. */
  function Candidates(names: seq<Value>, date: string): (r: seq<Value>)
    requires HistoricComparable(names, date)
    ensures AllDicts(r)
    ensures forall x :: x in r <==> x in names && IsHistoric(x) && IsNameCurrentAt(x.fields, date)
  {
    if names == [] then []
    else
      (if IsHistoric(names[0]) && IsNameCurrentAt(names[0].fields, date) then [names[0]] else [])
      + Candidates(names[1..], date)
  }

  /** The historic entries can all be compared exactly when the list meets
      `HistoricComparable`. */
  lemma {:induction false} HistoricComparableIff(names: seq<Value>, date: string)
    requires AllDicts(names)
    ensures NamesComparable(HistoricNames(names), date) <==> HistoricComparable(names, date)
  {
    if names != [] {
      HistoricComparableIff(names[1..], date);
      var h := if IsHistoric(names[0]) then [names[0]] else [];
      var t := HistoricNames(names[1..]);
      assert HistoricNames(names) == h + t;
      NamesComparableConcat(h, t, date);
      HistoricComparableCons(names, date);
    }
  }

  lemma NamesComparableConcat(a: seq<Value>, b: seq<Value>, date: string)
    ensures NamesComparable(a + b, date) <==> NamesComparable(a, date) && NamesComparable(b, date)
  {
    if NamesComparable(a + b, date) {
      forall i | 0 <= i < |a| ensures a[i].Obj? && Comparable(a[i].fields, date) {
        assert a[i] == (a + b)[i];
      }
      forall i | 0 <= i < |b| ensures b[i].Obj? && Comparable(b[i].fields, date) {
        assert b[i] == (a + b)[|a| + i];
      }
    }
  }

  lemma HistoricComparableCons(names: seq<Value>, date: string)
    requires names != []
    ensures HistoricComparable(names, date)
        <==> HistoricComparable([names[0]], date) && HistoricComparable(names[1..], date)
  {
    assert [names[0]][0] == names[0];
    if HistoricComparable([names[0]], date) && HistoricComparable(names[1..], date) {
      forall i | 1 <= i < |names|
        ensures names[i].Obj? && (IsHistoric(names[i]) ==> Comparable(names[i].fields, date))
      {
        assert names[i] == names[1..][i - 1];
      }
    }
    if HistoricComparable(names, date) {
      forall i | 0 <= i < |names| - 1
        ensures names[1..][i].Obj? && (IsHistoric(names[1..][i]) ==> Comparable(names[1..][i].fields, date))
      {
        assert names[1..][i] == names[i + 1];
      }
    }
  }

  /** The two filters of `name_at` amount to the single candidate filter. */
  lemma {:induction false} HistoricThenCurrent(names: seq<Value>, date: string)
    requires HistoricComparable(names, date)
    ensures NamesComparable(HistoricNames(names), date)
    ensures NamesAt(HistoricNames(names), date) == Candidates(names, date)
  {
    HistoricComparableIff(names, date);
    if names != [] {
      HistoricThenCurrent(names[1..], date);
      var h := if IsHistoric(names[0]) then [names[0]] else [];
      NamesAtConcat(h, HistoricNames(names[1..]), date);
    }
  }

  lemma {:induction false} NamesAtConcat(a: seq<Value>, b: seq<Value>, date: string)
    requires NamesComparable(a, date) && NamesComparable(b, date)
    ensures NamesComparable(a + b, date)
    ensures NamesAt(a + b, date) == NamesAt(a, date) + NamesAt(b, date)
  {
    if a != [] {
      assert (a + b)[1..] == a[1..] + b;
      NamesAtConcat(a[1..], b, date);
    } else {
      assert a + b == b;
    }
  }

  datatype NameError =
    | NotIterable                // other_names is None, a number or a boolean (TypeError)
    | NotADict                   // something iterated over has no `get` (AttributeError)
    | Uncomparable               // a date bound that is not text is compared (TypeError)
    | MultipleNames(count: nat)  // more than one historic name is current at the date
    | MissingName                // the single current entry has no "name" key (KeyError)

  /** The `other_names` attribute (default `[]`). */
  const OtherNamesAttr := Attribute("other_names", Arr([]), false)

  /** What iterating the stored other_names yields as entries for `n.get`: a list of
      dictionaries gives its items, an empty string or dictionary gives nothing, a
      non-empty one yields characters or keys that have no `get`, and anything else
      cannot be iterated. */
  function NameEntries(v: Value): (r: Result<seq<Value>, NameError>)
    ensures r.Success? ==> AllDicts(r.value)
    ensures r == Failure(NotIterable) <==> v.Null? || v.Int? || v.Bool?
    ensures r.Success? && r.value != [] ==> v.Arr? && r.value == v.items
  {
    match v
    case Arr(items) => if AllDicts(items) then Success(items) else Failure(NotADict)
    case Str(s) => if s == [] then Success([]) else Failure(NotADict)
    case Obj(fields) => if fields == map[] then Success([]) else Failure(NotADict)
    case _ => Failure(NotIterable)
  }

  /** The person's other_names is a list of dictionaries whose historic entries can be
      compared with `date`. */
  predicate OtherNamesShaped(data: Data, date: string) {
    var v := ReadAttribute(data, OtherNamesAttr).0;
    v.Arr? && HistoricComparable(v.items, date)
  }

  /** `Person.name_at`: the name in force on day `d`, or the error the source raises. */
  function NameAt(data: Data, d: Date): (r: Result<Value, NameError>)
    requires ValidDate(d)
    ensures var v := ReadAttribute(data, OtherNamesAttr).0;
      && (r == Failure(NotIterable) <==> v.Null? || v.Int? || v.Bool?)
      && (v.Arr? && !AllDicts(v.items) ==> r == Failure(NotADict))
      && (v.Arr? && AllDicts(v.items) ==> (r == Failure(Uncomparable) <==> !HistoricComparable(v.items, Iso(d))))
      && (!Truthy(v) && !(v.Null? || v.Int? || v.Bool?) ==> r == Success(Get(data, "name")))
    ensures r.Failure? && r.error.MultipleNames? ==> r.error.count > 1
  {
    var names :- NameEntries(ReadAttribute(data, OtherNamesAttr).0);
    var historic := HistoricNames(names);
    HistoricComparableIff(names, Iso(d));
    if historic == [] then Success(Get(data, "name"))
    else if !NamesComparable(historic, Iso(d)) then Failure(Uncomparable)
    else
      var current := NamesAt(historic, Iso(d));
      if current == [] then Success(Get(data, "name"))
      else if |current| > 1 then Failure(MultipleNames(|current|))
      else if "name" in current[0].fields then Success(current[0].fields["name"])
      else Failure(MissingName)
  }

  /** What `name_at` returns, in terms of the entries that are historic and current at the
      date: the plain name for none, the entry's name for one, an error for several. */
  lemma NameAtByCandidates(data: Data, d: Date)
    requires ValidDate(d) && OtherNamesShaped(data, Iso(d))
    ensures var c := Candidates(ReadAttribute(data, OtherNamesAttr).0.items, Iso(d));
      && (c == [] ==> NameAt(data, d) == Success(Get(data, "name")))
      && (|c| > 1 <==> NameAt(data, d) == Failure(MultipleNames(|c|)))
      && (|c| == 1 && "name" in c[0].fields ==> NameAt(data, d) == Success(c[0].fields["name"]))
      && (|c| == 1 && "name" !in c[0].fields ==> NameAt(data, d) == Failure(MissingName))
  {
    HistoricThenCurrent(ReadAttribute(data, OtherNamesAttr).0.items, Iso(d));
  }

  /** With no other_names entry that is both historic and current on that day, the plain
      name is returned. */
  lemma NameAtWithoutCandidates(data: Data, d: Date)
    requires ValidDate(d) && OtherNamesShaped(data, Iso(d))
    requires forall x :: x in ReadAttribute(data, OtherNamesAttr).0.items && x.Obj? && IsHistoric(x)
               ==> !IsNameCurrentAt(x.fields, Iso(d))
    ensures NameAt(data, d) == Success(Get(data, "name"))
  {
    NameAtByCandidates(data, d);
  }

  // ---------------------------------------------------------------- twitter

  /** `urlsplit` followed by the path rewrite, for a URL whose host is twitter.com: the
      screen name, or None for any other text. Supplied by the caller. */
  type UrlReader = string -> Option<string>

  /** A reader only recognises text that names the twitter.com host. */
  ghost predicate SoundReader(read: UrlReader) {
    forall s :: read(s).Some? ==> Contains(s, "twitter.com")
  }

  predicate IsAt(c: char) {
    c == '@'
  }

  /** `extract_twitter_username`: outside a twitter.com URL, surrounding whitespace and then
      every leading `@` is removed. */
  function ExtractTwitterUsername(s: string, read: UrlReader): (r: string)
    ensures read(s).None? ==> |r| <= |s| && (r == [] || r[0] != '@')
  {
    match read(s)
    case Some(u) => u
    case None => TrimLeft(Strip(s), IsAt)
  }

  /** A handle as stored: non-empty, no surrounding whitespace, no leading `@`, and not a
      twitter.com address. */
  predicate PlainHandle(u: string) {
    u != [] && !IsSpace(u[0]) && !IsSpace(u[|u| - 1]) && u[0] != '@' && !Contains(u, "twitter.com")
  }

  /** A plain handle is left as it is. */
  lemma PlainHandleUnchanged(u: string, read: UrlReader)
    requires SoundReader(read) && PlainHandle(u)
    ensures ExtractTwitterUsername(u, read) == u
  {
    assert read(u).None?;
    assert TrimLeft(u, IsSpace) == u;
    assert TrimRight(u, IsSpace) == u;
  }

  /** Every extracted handle outside a URL is a suffix of the input trimmed of whitespace,
      and all that was removed from its front is `@`s. */
  lemma ExtractPlainText(s: string, read: UrlReader)
    requires read(s).None?
    ensures var r := ExtractTwitterUsername(s, read); var t := Strip(s);
      && |r| <= |t| && r == t[|t| - |r|..]
      && (forall i :: 0 <= i < |t| - |r| ==> t[i] == '@')
      && (t != [] ==> !IsSpace(t[0]) && !IsSpace(t[|t| - 1]))
  {
    var l := TrimLeft(s, IsSpace);
    var t := TrimRight(l, IsSpace);
    if t != [] {
      assert t[0] == l[0];
    }
  }

  /** Both twitter lists, where present, are lists of entries that carry their type key:
      all the setter needs. */
  predicate TwitterListsShaped(data: Data) {
    ListShaped(data, "contact_details", "type") && ListShaped(data, "links", "note")
  }

  /** Both twitter lists can also be read: every twitter entry holds its value. */
  predicate TwitterShaped(data: Data) {
    && ListReadable(data, "contact_details", "type", "twitter", "value")
    && ListReadable(data, "links", "note", "twitter", "url")
  }

  /** `contact_detail_value('twitter') or link_value('twitter')`. */
  function TwitterSource(data: Data): (r: Value)
    requires TwitterShaped(data)
  {
    var c := OrNull(ContactDetailValue(data, "twitter"));
    if Truthy(c) then c else OrNull(LinkValue(data, "twitter"))
  }

  datatype TwitterError =
    | TypeError      // `"twitter.com" in None`
    | HandleNotText  // `urlsplit` of a stored handle that is not a string

  /** The `twitter` getter: None when neither source is set, an error when the stored
      handle is not text. */
  function TwitterOf(data: Data, read: UrlReader): (r: Result<Option<string>, TwitterError>)
    requires TwitterShaped(data)
    ensures r == Success(None) <==> !Truthy(TwitterSource(data))
    ensures r == Failure(HandleNotText) <==> Truthy(TwitterSource(data)) && !TwitterSource(data).Str?
  {
    var v := TwitterSource(data);
    if !Truthy(v) then Success(None)
    else if v.Str? then Success(Some(ExtractTwitterUsername(v.s, read)))
    else Failure(HandleNotText)
  }

  /** The getter prefers the contact detail and falls back on the link. */
  lemma TwitterPrefersContact(data: Data, read: UrlReader)
    requires TwitterShaped(data)
    ensures var c := ContactDetailValues(data, "twitter");
      c != [] && Truthy(c[0]) ==>
        TwitterOf(data, read) == if c[0].Str? then Success(Some(ExtractTwitterUsername(c[0].s, read))) else Failure(HandleNotText)
    ensures var c := ContactDetailValues(data, "twitter"); var l := LinkValues(data, "twitter");
      (c == [] || !Truthy(c[0])) ==>
        TwitterOf(data, read) ==
          if l == [] || !Truthy(l[0]) then Success(None)
          else if l[0].Str? then Success(Some(ExtractTwitterUsername(l[0].s, read)))
          else Failure(HandleNotText)
  {
  }

  /** The link list is untouched by a change confined to the contact details. */
  lemma LinksUnchanged(before: Data, after: Data)
    requires forall k :: k != "contact_details" ==> (k in after <==> k in before) && (k in before ==> after[k] == before[k])
    ensures RelatedList(after, "links") == RelatedList(before, "links")
    ensures ListShaped(after, "links", "note") == ListShaped(before, "links", "note")
  {
    assert "links" != "contact_details";
  }

  /** The contact details are untouched by a change confined to the links. */
  lemma ContactsUnchanged(before: Data, after: Data)
    requires forall k :: k != "links" ==> (k in after <==> k in before) && (k in before ==> after[k] == before[k])
    ensures RelatedList(after, "contact_details") == RelatedList(before, "contact_details")
    ensures ListShaped(after, "contact_details", "type") == ListShaped(before, "contact_details", "type")
  {
    assert "contact_details" != "links";
  }

  /** The URL branch of the setter: the URL becomes the first twitter link, then the
      handle is set as contact detail. On readable lists, what is read back. */
  function LinkWithContact(data: Data, url: string, handle: Value): (r: Data)
    requires TwitterListsShaped(data)
    ensures TwitterListsShaped(r)
    ensures TwitterShaped(data) ==> (TwitterShaped(r)
      && LinkValues(r, "twitter") == [Str(url)] + Drop1(LinkValues(data, "twitter"))
      && ContactDetailValues(r, "twitter")
         == (if Truthy(handle) then [handle] else []) + Drop1(ContactDetailValues(data, "twitter")))
  {
    var withLink := SetRelated(data, "links", "note", "twitter", "url", Str(url));
    ContactsUnchanged(data, withLink);
    var r := SetContactDetail(withLink, "twitter", handle);
    LinksUnchanged(withLink, r);
    if TwitterShaped(data) then
      SetRelatedThenValues(data, "links", "note", "twitter", "twitter", "url", Str(url));
      SetContactDetailThenValues(withLink, "twitter", handle);
      r
    else r
  }

  /** The other branch of the setter: the first twitter link is deleted, then the value is
      set as contact detail. On readable lists, what is read back. */
  function UnlinkWithContact(data: Data, contact: Value): (r: Data)
    requires TwitterListsShaped(data)
    ensures TwitterListsShaped(r)
    ensures TwitterShaped(data) ==> (TwitterShaped(r)
      && LinkValues(r, "twitter") == Drop1(LinkValues(data, "twitter"))
      && ContactDetailValues(r, "twitter")
         == (if Truthy(contact) then [contact] else []) + Drop1(ContactDetailValues(data, "twitter")))
  {
    var withoutLink := DelRelated(data, "links", "note", "twitter");
    ContactsUnchanged(data, withoutLink);
    var r := SetContactDetail(withoutLink, "twitter", contact);
    LinksUnchanged(withoutLink, r);
    if TwitterShaped(data) then
      DelRelatedThenValues(data, "links", "note", "twitter", "twitter", "url");
      SetContactDetailThenValues(withoutLink, "twitter", contact);
      r
    else r
  }

  /** The `twitter` setter, with None accepted as "clear" (see `WithTwitterAsWritten`): a
      twitter.com address is stored as the link and its handle as the contact detail; any
      other value removes the first twitter link and becomes the contact detail (a falsy
      one removes the first twitter contact detail). */
  function WithTwitter(data: Data, value: Option<string>, read: UrlReader): (r: Data)
    requires TwitterListsShaped(data)
    ensures TwitterListsShaped(r)
    ensures TwitterShaped(data) ==> TwitterShaped(r)
  {
    if value.Some? && Contains(value.value, "twitter.com") then
      LinkWithContact(data, value.value, Str(ExtractTwitterUsername(value.value, read)))
    else
      UnlinkWithContact(data, if value.Some? then Str(value.value) else Null)
  }

  /** The `twitter` setter as written: the containment test is applied to None too. */
  function WithTwitterAsWritten(data: Data, value: Option<string>, read: UrlReader): (r: Result<Data, TwitterError>)
    requires TwitterListsShaped(data)
    ensures r.Success? <==> value.Some?
    ensures r.Success? ==> r.value == WithTwitter(data, value, read)
  {
    if value.None? then Failure(TypeError) else Success(WithTwitter(data, value, read))
  }

  /** The `twitter` setter on a record. */
  method SetTwitter(p: PopoloObject, value: Option<string>, read: UrlReader)
    requires TwitterListsShaped(p.data)
    modifies p
    ensures p.data == WithTwitter(old(p.data), value, read)
  {
    if value.Some? && Contains(value.value, "twitter.com") {
      var username := ExtractTwitterUsername(value.value, read);
      p.SetLinkValues("twitter", Str(value.value));
      p.SetContactDetailValues("twitter", Str(username));
    } else {
      p.DelLinkValues("twitter");
      p.SetContactDetailValues("twitter", if value.Some? then Str(value.value) else Null);
    }
  }

  /** Setting a non-URL name reads back that name (trimmed of whitespace and `@`s), and the
      first twitter link is gone. */
  lemma TwitterPlainReadBack(data: Data, name: string, read: UrlReader)
    requires SoundReader(read) && TwitterShaped(data)
    requires name != [] && !Contains(name, "twitter.com")
    ensures TwitterShaped(WithTwitter(data, Some(name), read))
    ensures TwitterOf(WithTwitter(data, Some(name), read), read) == Success(Some(TrimLeft(Strip(name), IsAt)))
    ensures LinkValues(WithTwitter(data, Some(name), read), "twitter") == Drop1(LinkValues(data, "twitter"))
  {
    var d := WithTwitter(data, Some(name), read);
    assert ContactDetailValues(d, "twitter") == [Str(name)] + Drop1(ContactDetailValues(data, "twitter"));
    assert ContactDetailValue(d, "twitter") == Some(Str(name));
    assert TwitterSource(d) == Str(name);
    assert !read(name).Some?;
  }

  /** Setting a twitter.com URL whose handle is plain reads back the handle, and the URL is
      the first twitter link. */
  lemma TwitterUrlReadBack(data: Data, url: string, read: UrlReader)
    requires SoundReader(read) && TwitterShaped(data)
    requires Contains(url, "twitter.com") && PlainHandle(ExtractTwitterUsername(url, read))
    ensures TwitterShaped(WithTwitter(data, Some(url), read))
    ensures TwitterOf(WithTwitter(data, Some(url), read), read) == Success(Some(ExtractTwitterUsername(url, read)))
    ensures First(LinkValues(WithTwitter(data, Some(url), read), "twitter")) == Some(Str(url))
  {
    var handle := ExtractTwitterUsername(url, read);
    var d := WithTwitter(data, Some(url), read);
    assert d == LinkWithContact(data, url, Str(handle));
    assert ContactDetailValues(d, "twitter") == [Str(handle)] + Drop1(ContactDetailValues(data, "twitter"));
    assert ContactDetailValue(d, "twitter") == Some(Str(handle));
    assert TwitterSource(d) == Str(handle);
    PlainHandleUnchanged(handle, read);
  }

  /** Clearing removes the first twitter link and the first twitter contact detail; a
      record holding at most one of each then has no twitter handle. */
  lemma TwitterClear(data: Data, read: UrlReader)
    requires TwitterShaped(data)
    ensures TwitterShaped(WithTwitter(data, None, read))
    ensures LinkValues(WithTwitter(data, None, read), "twitter") == Drop1(LinkValues(data, "twitter"))
    ensures ContactDetailValues(WithTwitter(data, None, read), "twitter") == Drop1(ContactDetailValues(data, "twitter"))
    ensures |LinkValues(data, "twitter")| <= 1 && |ContactDetailValues(data, "twitter")| <= 1 ==>
      TwitterOf(WithTwitter(data, None, read), read) == Success(None)
  {
  }

  /** The sequence of assignments of the twitter round-trip scenario: a name, a URL and the
      name again read back the name; the final clearing with None fails as written. */
  lemma TwitterScenario(data: Data, read: UrlReader)
    requires SoundReader(read) && TwitterShaped(data)
    ensures var d1 := WithTwitter(data, Some("testuser"), read);
      var d2 := WithTwitter(d1, Some("http://www.twitter.com/testuser"), read);
      var d3 := WithTwitter(d2, Some("testuser"), read);
      && TwitterShaped(d3) && TwitterOf(d3, read) == Success(Some("testuser"))
      && WithTwitterAsWritten(d3, None, read) == Failure(TypeError)
      && WithTwitterAsWritten(d3, Some("testuser"), read).Success?
  {
    var d1 := WithTwitter(data, Some("testuser"), read);
    var d2 := WithTwitter(d1, Some("http://www.twitter.com/testuser"), read);
    TestuserIsPlain();
    TwitterPlainReadBack(d2, "testuser", read);
    PlainHandleUnchanged("testuser", read);
  }

  lemma TestuserIsPlain()
    ensures PlainHandle("testuser")
  {
    var u := "testuser";
    assert |u| < |"twitter.com"|;
    assert Find(u, "twitter.com").None?;
  }

  // ---------------------------------------------------------------- unique_preserving_order

  /** The position of the first occurrence of `x` in `s`. */
  function FirstIndex<T(==)>(s: seq<T>, x: T): (i: nat)
    requires x in s
    ensures i < |s| && s[i] == x && x !in s[..i]
  {
    if s[0] == x then 0
    else
      var j := FirstIndex(s[1..], x);
      assert s[..j + 1] == [s[0]] + s[1..][..j];
      j + 1
  }

  predicate NoDuplicates<T(==)>(s: seq<T>) {
    forall i, j :: 0 <= i < j < |s| ==> s[i] != s[j]
  }

  /** `unique_preserving_order`: the distinct elements of the input, each once, in order of
      first occurrence. */
  method UniquePreservingOrder<T(==)>(s: seq<T>) returns (r: seq<T>)
    ensures NoDuplicates(r)
    ensures forall x :: x in r <==> x in s
    ensures forall i, j :: 0 <= i < j < |r| ==> FirstIndex(s, r[i]) < FirstIndex(s, r[j])
  {
    var seen: set<T> := {};
    r := [];
    var k := 0;
    while k < |s|
      invariant 0 <= k <= |s|
      invariant forall x :: x in seen <==> x in s[..k]
      invariant forall x :: x in r <==> x in s[..k]
      invariant NoDuplicates(r)
      invariant forall i :: 0 <= i < |r| ==> r[i] in s && FirstIndex(s, r[i]) < k
      invariant forall i, j :: 0 <= i < j < |r| ==> FirstIndex(s, r[i]) < FirstIndex(s, r[j])
    {
      var x := s[k];
      assert s[..k + 1] == s[..k] + [x];
      if x !in seen {
        assert x !in s[..k];
        FirstIndexAt(s, k);
        seen := seen + {x};
        r := r + [x];
      }
      k := k + 1;
    }
    assert s[..k] == s;
  }

  /** An element not seen before position `k` first occurs at `k`. */
  lemma FirstIndexAt<T>(s: seq<T>, k: nat)
    requires k < |s| && s[k] !in s[..k]
    ensures FirstIndex(s, s[k]) == k
  {
  }

  // ---------------------------------------------------------------- memberships

  /** The six foreign keys, in the order `Membership.id` lists them. */
  const ForeignKeys: seq<string> :=
    ["person_id", "organization_id", "area_id", "post_id", "legislative_period_id", "on_behalf_of_id"]

  /** The list `Membership.id` hashes. */
  function MembershipKey(data: Data): (r: seq<Value>)
    ensures |r| == |ForeignKeys|
    ensures forall i :: 0 <= i < |r| ==> r[i] == Get(data, ForeignKeys[i])
  {
    seq(|ForeignKeys|, i requires 0 <= i < |ForeignKeys| => Get(data, ForeignKeys[i]))
  }

  /** `Membership.id`; `hash` stands for `hash(str(...))` of the list of six values. */
  function MembershipId(data: Data, hash: seq<Value> -> int): (r: int)
    ensures r == hash([Get(data, "person_id"), Get(data, "organization_id"), Get(data, "area_id"),
                       Get(data, "post_id"), Get(data, "legislative_period_id"), Get(data, "on_behalf_of_id")])
  {
    var listed := [Get(data, "person_id"), Get(data, "organization_id"), Get(data, "area_id"),
                   Get(data, "post_id"), Get(data, "legislative_period_id"), Get(data, "on_behalf_of_id")];
    assert forall i :: 0 <= i < 6 ==> MembershipKey(data)[i] == listed[i];
    assert MembershipKey(data) == listed;
    hash(MembershipKey(data))
  }

  /** Memberships that agree on the six foreign keys share an id, whatever else differs. */
  lemma MembershipIdByForeignKeys(a: Data, b: Data, hash: seq<Value> -> int)
    requires forall k :: k in ForeignKeys ==> Get(a, k) == Get(b, k)
    ensures MembershipId(a, hash) == MembershipId(b, hash)
  {
    assert MembershipKey(a) == MembershipKey(b);
  }

  /** Changing a field outside the six keys leaves the id as it was. */
  lemma MembershipIdIgnoresOtherFields(data: Data, key: string, v: Value, hash: seq<Value> -> int)
    requires key !in ForeignKeys
    ensures MembershipId(data[key := v], hash) == MembershipId(data, hash)
  {
    MembershipIdByForeignKeys(data[key := v], data, hash);
  }

  /** `Membership.__eq__` and `__ne__`: the whole data maps are compared. */
  predicate MembershipEq(a: Data, b: Data) {
    a == b
  }

  predicate MembershipNe(a: Data, b: Data) {
    a != b
  }

  /** Equal memberships share an id, but a shared id does not make them equal. */
  lemma MembershipEqualityFinerThanId(hash: seq<Value> -> int)
    ensures forall a, b :: MembershipEq(a, b) ==> MembershipId(a, hash) == MembershipId(b, hash)
    ensures forall a, b :: MembershipNe(a, b) <==> !MembershipEq(a, b)
    ensures var a := map["role" := Str("member")]; var b := map["role" := Str("chair")];
      MembershipId(a, hash) == MembershipId(b, hash) && MembershipNe(a, b)
  {
    var a := map["role" := Str("member")];
    var b := map["role" := Str("chair")];
    MembershipIdIgnoresOtherFields(a, "role", Str("chair"), hash);
    assert a["role" := Str("chair")] == b;
    assert a["role"] != b["role"];
  }

  /** `Membership.start_date`: PAST when absent. */
  function StartDate(data: Data): (r: Result<ApproxDate, DateError>)
    ensures !Truthy(Get(data, "start_date")) ==> r == Success(PAST)
  {
    DateField(data, "start_date", PAST)
  }

  /** `Membership.end_date`: FUTURE when absent. */
  function EndDate(data: Data): (r: Result<ApproxDate, DateError>)
    ensures !Truthy(Get(data, "end_date")) ==> r == Success(FUTURE)
  {
    DateField(data, "end_date", FUTURE)
  }

  /** A membership without dates runs from before every valid day to after every one. */
  lemma OpenMembershipSpansEveryDay(data: Data, d: Date)
    requires ValidDate(d)
    requires !Truthy(Get(data, "start_date")) && !Truthy(Get(data, "end_date"))
    ensures StartDate(data).Success? && EndDate(data).Success?
    ensures DateLe(StartDate(data).value.latest, d) && DateLe(d, EndDate(data).value.earliest)
  {
    SentinelsBoundEveryDate(d);
  }

  // ---------------------------------------------------------------- kinds and keys

  /** The six kinds of Popolo record. */
  datatype Kind = Person | Organization | Membership | Area | Post | Event

  /** `key_for_hash`: a membership is keyed by its whole data (the sorted JSON text is a
      faithful rendering of it), every other record by its `id`. */
  function KeyForHash(kind: Kind, data: Data): (r: Value)
    ensures kind != Membership ==> r == Get(data, "id")
  {
    if kind == Membership then Obj(data) else Get(data, "id")
  }

  /** Memberships share a key exactly when their data are equal; other records share one
      exactly when their ids are equal. */
  lemma KeyForHashMatchesEquality(kind: Kind, a: Data, b: Data)
    ensures kind == Membership ==> (KeyForHash(kind, a) == KeyForHash(kind, b) <==> MembershipEq(a, b))
    ensures kind != Membership ==> (KeyForHash(kind, a) == KeyForHash(kind, b) <==> SameRecord(a, b))
  {
  }
}
