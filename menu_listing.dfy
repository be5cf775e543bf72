/** `GET /api/menu` in both servers: the active menu PDFs are indexed by
    the key their title names (`food_menu`, `wine_menu`, or the number in
    `Menu Item <n>`), and each menu item, followed by the two menu types,
    is listed with the PDF its id finds in that index. */
module MenuListing {
  import opened JsText
  import opened JsValues
  import opened MenuPdfs

  const ItemPrefix: string := "Menu Item "

  /** `title.match(/Menu Item (\d+)/)`: the digits of the leftmost
      occurrence of `Menu Item ` that a digit follows, taken greedily. */
  function MenuItemDigits(title: string): (r: Option<string>)
    ensures r.Some? ==> r.value != [] && AllDigits(r.value)
    decreases |title|
  {
    if |title| <= |ItemPrefix| then None
    else if title[..|ItemPrefix|] == ItemPrefix && IsDigit(title[|ItemPrefix|]) then
      Some(DigitRun(title[|ItemPrefix|..]))
    else MenuItemDigits(title[1..])
  }

  /** `Menu Item ` followed by a digit occurs in `title` at position `p`. */
  predicate MatchAt(title: string, p: nat) {
    && p + |ItemPrefix| < |title|
    && title[p..p + |ItemPrefix|] == ItemPrefix
    && IsDigit(title[p + |ItemPrefix|])
  }

  /** An occurrence in the tail is one position further in the title. */
  lemma MatchShift(title: string, p: nat)
    requires title != []
    ensures MatchAt(title, p + 1) <==> MatchAt(title[1..], p)
  {
    if p + 1 + |ItemPrefix| < |title| {
      assert title[1..][p..p + |ItemPrefix|] == title[p + 1..p + 1 + |ItemPrefix|];
    }
  }

  /** The regular expression matches exactly when some occurrence exists,
      and then yields the greedy digit run after the leftmost one. */
  lemma {:induction false} MenuItemDigitsSpec(title: string)
    ensures MenuItemDigits(title).None? <==> forall p: nat :: !MatchAt(title, p)
    ensures MenuItemDigits(title).Some? ==>
              exists p: nat :: && MatchAt(title, p)
                               && (forall q: nat :: q < p ==> !MatchAt(title, q))
                               && MenuItemDigits(title) == Some(DigitRun(title[p + |ItemPrefix|..]))
    decreases |title|
  {
    if |title| <= |ItemPrefix| {
      forall p: nat
        ensures !MatchAt(title, p)
      {
      }
    } else if title[..|ItemPrefix|] == ItemPrefix && IsDigit(title[|ItemPrefix|]) {
      assert MatchAt(title, 0);
    } else {
      var tail := title[1..];
      MenuItemDigitsSpec(tail);
      assert !MatchAt(title, 0);
      forall p: nat
        ensures MatchAt(title, p + 1) <==> MatchAt(tail, p)
      {
        MatchShift(title, p);
      }
      if MenuItemDigits(tail).None? {
        forall p: nat
          ensures !MatchAt(title, p)
        {
          if p > 0 {
            MatchShift(title, p - 1);
          }
        }
      } else {
        var p: nat :| && MatchAt(tail, p)
                       && (forall q: nat :: q < p ==> !MatchAt(tail, q))
                       && MenuItemDigits(tail) == Some(DigitRun(tail[p + |ItemPrefix|..]));
        assert tail[p + |ItemPrefix|..] == title[p + 1 + |ItemPrefix|..];
        forall q: nat | q < p + 1
          ensures !MatchAt(title, q)
        {
          if q > 0 {
            MatchShift(title, q - 1);
          }
        }
        assert MatchAt(title, p + 1);
      }
    }
  }

  /** The key a PDF's title is indexed under; `None` for a title that
      names no menu entry. */
  function KeyOfTitle(title: string): (k: Option<string>)
    ensures k.Some? ==> k.value != []
  {
    if title == "Food Menu" then Some("food_menu")
    else if title == "Wine Menu" then Some("wine_menu")
    else match MenuItemDigits(title)
      case Some(d) => Some(NatToString(DigitsValue(d)))
      case None => None
  }

  /** Given its leftmost occurrence, the digits found are the run after it. */
  lemma DigitsAtLeftmostMatch(title: string, p: nat)
    requires MatchAt(title, p) && forall q: nat :: q < p ==> !MatchAt(title, q)
    ensures MenuItemDigits(title) == Some(DigitRun(title[p + |ItemPrefix|..]))
  {
    MenuItemDigitsSpec(title);
    var p': nat :| && MatchAt(title, p')
                   && (forall q: nat :: q < p' ==> !MatchAt(title, q))
                   && MenuItemDigits(title) == Some(DigitRun(title[p' + |ItemPrefix|..]));
    assert MatchAt(title, p') && MatchAt(title, p);
    assert p' == p;
  }

  /** Any other title is keyed by the decimal value of the digits after
      the leftmost `Menu Item ` that a digit follows, wherever it occurs,
      and has no key when there is none. */
  lemma KeyOfTitleSpec(title: string)
    requires title != "Food Menu" && title != "Wine Menu"
    ensures (forall p: nat :: !MatchAt(title, p)) ==> KeyOfTitle(title).None?
    ensures forall p: nat :: MatchAt(title, p) && (forall q: nat :: q < p ==> !MatchAt(title, q)) ==>
              KeyOfTitle(title) == Some(NatToString(DigitsValue(DigitRun(title[p + |ItemPrefix|..]))))
  {
    MenuItemDigitsSpec(title);
    forall p: nat | MatchAt(title, p) && (forall q: nat :: q < p ==> !MatchAt(title, q))
      ensures MenuItemDigits(title) == Some(DigitRun(title[p + |ItemPrefix|..]))
    {
      DigitsAtLeftmostMatch(title, p);
    }
  }

  /** A title `Menu Item ` followed by digits is matched at its start. */
  lemma ItemTitleDigits(digits: string)
    requires digits != [] && AllDigits(digits)
    ensures MenuItemDigits(ItemPrefix + digits) == Some(digits)
  {
    var t := ItemPrefix + digits;
    assert t[..|ItemPrefix|] == ItemPrefix;
    assert t[|ItemPrefix|..] == digits;
    DigitRunOfDigits(digits);
  }

  /** The title an upload files a route id under leads the listing back
      to that id, for the two menu types and for every id written in
      canonical decimal. */
  lemma TitleKeyRoundTrip(id: string)
    requires id == "food_menu" || id == "wine_menu" || exists n: nat :: id == NatToString(n)
    ensures KeyOfTitle(TitleFor(id)) == Some(id)
  {
    if id != "food_menu" && id != "wine_menu" {
      var n: nat :| id == NatToString(n);
      var t := TitleFor(id);
      assert t == ItemPrefix + id;
      assert |t| > 9;
      ItemTitleDigits(id);
      DigitsValueOfNatToString(n);
    }
  }

  /** An id with leading zeros is not canonical: the upload for `007` is
      listed under `7`. */
  lemma LeadingZerosDoNotRoundTrip(id: string)
    requires id == "007"
    ensures KeyOfTitle(TitleFor(id)) == Some("7")
  {
    var t := TitleFor(id);
    assert t == ItemPrefix + id;
    assert |t| > 9;
    ItemTitleDigits(id);
    assert id[..1][..0] == [] && DigitsValue(id[..1]) == 0;
    assert id[..2][..1] == id[..1] && DigitsValue(id[..2]) == 0;
    assert id[..|id| - 1] == id[..2];
    assert NatToString(7) == "7";
  }

  /** The map `pdfsMap` after the `forEach` over the active records: each
      active record with a key is stored under it, a later one replacing
      an earlier one. */
  function PdfIndex(pdfs: seq<MenuPdf>): (m: map<string, MenuPdf>)
    ensures forall k :: k in m ==> m[k] in pdfs && m[k].isActive && KeyOfTitle(m[k].menuTitle) == Some(k)
  {
    if pdfs == [] then map[]
    else
      var last := pdfs[|pdfs| - 1];
      var m := PdfIndex(pdfs[..|pdfs| - 1]);
      var key := KeyOfTitle(last.menuTitle);
      if last.isActive && key.Some? then m[key.value := last] else m
  }

  /** The record indexed under a key is the newest active one with that
      key. */
  lemma {:induction false} IndexKeepsNewest(pdfs: seq<MenuPdf>, j: nat, k: string)
    requires j < |pdfs| && pdfs[j].isActive && KeyOfTitle(pdfs[j].menuTitle) == Some(k)
    requires forall l :: j < l < |pdfs| ==> !(pdfs[l].isActive && KeyOfTitle(pdfs[l].menuTitle) == Some(k))
    ensures k in PdfIndex(pdfs) && PdfIndex(pdfs)[k] == pdfs[j]
  {
    if j < |pdfs| - 1 {
      IndexKeepsNewest(pdfs[..|pdfs| - 1], j, k);
    }
  }

  /** A key no active record names is not in the index. */
  lemma {:induction false} IndexOnlyActive(pdfs: seq<MenuPdf>, k: string)
    requires forall l :: 0 <= l < |pdfs| ==> !(pdfs[l].isActive && KeyOfTitle(pdfs[l].menuTitle) == Some(k))
    ensures k !in PdfIndex(pdfs)
  {
    if pdfs != [] {
      IndexOnlyActive(pdfs[..|pdfs| - 1], k);
    }
  }

  /** With two active versions of a title, the listing shows the newer
      one while `GET /api/menu/:id/pdf` serves the older one. */
  lemma ListingAndDownloadDisagree(p: MenuPdf, q: MenuPdf, t: string)
    requires t == "Food Menu"
    requires p.isActive && q.isActive && p.menuTitle == t && q.menuTitle == t
    ensures PdfIndex([p, q])["food_menu"] == q
    ensures FirstActive([p, q], TitleFor("food_menu")) == Some(0)
  {
    IndexKeepsNewest([p, q], 1, "food_menu");
  }

  /** The loop that fills `pdfsMap`. */
  method BuildPdfIndex(pdfs: seq<MenuPdf>) returns (index: map<string, MenuPdf>)
    ensures index == PdfIndex(pdfs)
  {
    index := map[];
    for i := 0 to |pdfs|
      invariant index == PdfIndex(pdfs[..i])
    {
      assert pdfs[..i + 1][..i] == pdfs[..i];
      var key := KeyOfTitle(pdfs[i].menuTitle);
      if pdfs[i].isActive && key.Some? {
        index := index[key.value := pdfs[i]];
      }
    }
    assert pdfs[..|pdfs|] == pdfs;
  }

  /** The names a plain object `{}` inherits from `Object.prototype`:
      reading one of them as a property finds a function (or, for
      `__proto__`, the prototype itself), which is truthy. */
  const PrototypeMembers: set<string> :=
    {"constructor", "__proto__", "hasOwnProperty", "isPrototypeOf", "propertyIsEnumerable",
     "toLocaleString", "toString", "valueOf",
     "__defineGetter__", "__defineSetter__", "__lookupGetter__", "__lookupSetter__"}

  /** A string starting with a digit names no inherited member. */
  lemma NumericNotInherited(k: string)
    requires k != [] && IsDigit(k[0])
    ensures k !in PrototypeMembers
  {
  }

  /** No key of the index is an inherited name: the menu type keys are
      not, and a number starts with a digit. */
  lemma KeyNotInherited(title: string)
    ensures KeyOfTitle(title).Some? ==> KeyOfTitle(title).value !in PrototypeMembers
  {
    var key := KeyOfTitle(title);
    if key.Some? && title != "Food Menu" && title != "Wine Menu" {
      var d := MenuItemDigits(title).value;
      assert key.value == NatToString(DigitsValue(d));
      NumericNotInherited(key.value);
    }
  }

  /** What `pdfsMap[item.id]` finds: the item's own indexed PDF, a value
      inherited from `Object.prototype`, or nothing. */
  datatype Found = Own(file: MenuPdf) | Inherited | Absent

  /** An entry of the response: a menu item (with what its id finds) or
      one of the two menu types (with its PDF or `null`). An `Inherited`
      item is sent with a `pdfFile` whose fields are all `undefined`. */
  datatype Entry =
    | Item(fields: map<string, Json>, found: Found)
    | MenuType(key: string, pdf: Option<MenuPdf>)

  /** `pdfsMap[item.id]`: an item is looked up under its id as a property
      key; an item without an id under `undefined`. */
  function ItemKey(item: map<string, Json>): string {
    if "id" in item then PropertyKey(item["id"]) else "undefined"
  }

  /** An own property of the index. */
  function Lookup(index: map<string, MenuPdf>, key: string): Option<MenuPdf> {
    if key in index then Some(index[key]) else None
  }

  /** A property read on the index, inherited names included. */
  function Find(index: map<string, MenuPdf>, key: string): Found {
    if key in index then Own(index[key])
    else if key in PrototypeMembers then Inherited
    else Absent
  }

  /** The response: every item, unchanged when its id finds nothing,
      followed by the food and wine menu types. */
  function Listing(items: seq<map<string, Json>>, index: map<string, MenuPdf>): (r: seq<Entry>)
    ensures |r| == |items| + 2
    ensures forall i :: 0 <= i < |items| ==>
              && r[i].Item? && r[i].fields == items[i]
              && (r[i].found.Own? <==> ItemKey(items[i]) in index)
              && (r[i].found.Own? ==> r[i].found.file == index[ItemKey(items[i])])
              && (r[i].found.Inherited? <==> ItemKey(items[i]) !in index && ItemKey(items[i]) in PrototypeMembers)
    ensures r[|items|] == MenuType("food_menu", Lookup(index, "food_menu"))
    ensures r[|items| + 1] == MenuType("wine_menu", Lookup(index, "wine_menu"))
  {
    seq(|items|, i requires 0 <= i < |items| => Item(items[i], Find(index, ItemKey(items[i]))))
      + [MenuType("food_menu", Lookup(index, "food_menu")), MenuType("wine_menu", Lookup(index, "wine_menu"))]
  }

  /** An item whose id names an `Object.prototype` member is listed with
      the inherited value, whatever PDFs exist. */
  lemma InheritedIdListed(pdfs: seq<MenuPdf>, item: map<string, Json>, k: string)
    requires "id" in item && item["id"] == JString(k) && k in PrototypeMembers
    ensures Listing([item], PdfIndex(pdfs))[0] == Item(item, Inherited)
  {
    var index := PdfIndex(pdfs);
    if k in index {
      KeyNotInherited(index[k].menuTitle);
      assert false;
    }
  }

  /** `GET /api/menu`: when the PDF query throws, the bare items. */
  method GetMenu(items: seq<map<string, Json>>, pdfs: seq<MenuPdf>, queryFails: bool) returns (r: seq<Entry>)
    ensures queryFails ==> |r| == |items| && forall i :: 0 <= i < |items| ==> r[i] == Item(items[i], Absent)
    ensures !queryFails ==> r == Listing(items, PdfIndex(pdfs))
  {
    if queryFails {
      return seq(|items|, i requires 0 <= i < |items| => Item(items[i], Absent));
    }
    var index := BuildPdfIndex(pdfs);
    r := Listing(items, index);
  }

  /** A PDF uploaded for item `n` and still the newest active version of
      its title is listed with the item whose id is the number `n`. */
  lemma UploadListedWithItem(pdfs: seq<MenuPdf>, p: MenuPdf, n: nat, item: map<string, Json>)
    requires p.isActive && p.menuTitle == TitleFor(NatToString(n))
    requires "id" in item && item["id"] == JNumber(n)
    ensures Listing([item], PdfIndex(pdfs + [p]))[0] == Item(item, Own(p))
  {
    TitleKeyRoundTrip(NatToString(n));
    IndexKeepsNewest(pdfs + [p], |pdfs|, NatToString(n));
  }
}
