/** The menu PDFs of server-mongodb.js: a collection of `MenuPdf` records,
    each filed under a menu title (`Food Menu`, `Wine Menu` or
    `Menu Item <id>`) and flagged active or not, plus the uploaded files on
    disk. Uploads add a new active version; the admin endpoints switch
    versions on and off and delete them. */
module MenuPdfs {
  import opened JsText
  import opened JsValues

  /** The upload limit of the multer configuration: 10 MiB. */
  const MaxFileSize: int := 10 * 1024 * 1024
  const PdfMimeType: string := "application/pdf"
  const BearerPrefix: string := "Bearer "
  const AdminToken: string := "admin-token"

  /** A `MenuPdf` document. `id` stands for the ObjectId; ids grow with
      creation time, so their order is the `createdAt` order. */
  datatype MenuPdf = MenuPdf(
    id: nat,
    title: string,
    menuTitle: string,
    filename: string,
    fileSize: int,
    mimeType: string,
    isActive: bool)

  /** What multer hands over for the `menuPdf` field. */
  datatype UploadedFile = UploadedFile(originalname: string, filename: string, size: int, mimetype: string)

  /** The menu title a route's `:id` is filed under. */
  function TitleFor(menuItemId: string): string {
    if menuItemId == "food_menu" then "Food Menu"
    else if menuItemId == "wine_menu" then "Wine Menu"
    else "Menu Item " + menuItemId
  }

  /** Different route ids are filed under different titles. */
  lemma TitleForInjective(a: string, b: string)
    requires TitleFor(a) == TitleFor(b)
    ensures a == b
  {
    var p := "Menu Item ";
    if a != "food_menu" && a != "wine_menu" && b != "food_menu" && b != "wine_menu" {
      assert a == TitleFor(a)[|p|..] && b == TitleFor(b)[|p|..];
    }
  }

  /** The header check of the admin endpoints: 401 without a header that
      starts with `Bearer `, 403 for any token but the admin's, and
      nothing when the header is exactly `Bearer admin-token`. */
  function AuthFailure(header: Option<string>): (r: Option<int>)
    ensures r.None? <==> header == Some(BearerPrefix + AdminToken)
    ensures r == Some(401) <==> header.None? || !StartsWith(header.value, BearerPrefix)
    ensures r.Some? ==> r.value == 401 || r.value == 403
  {
    if header.None? || header.value == [] || !StartsWith(header.value, BearerPrefix) then Some(401)
    else if header.value[|BearerPrefix|..] != AdminToken then
      Some(403)
    else
      assert header.value == header.value[..|BearerPrefix|] + header.value[|BearerPrefix|..];
      None
  }

  /** Records are kept in creation order: ids strictly increase. */
  predicate IdsIncreasing(pdfs: seq<MenuPdf>) {
    forall i, j :: 0 <= i < j < |pdfs| ==> pdfs[i].id < pdfs[j].id
  }

  /** `findOne({ menuTitle, isActive: true })`: the first active record of
      that title in natural (creation) order. */
  function FirstActive(pdfs: seq<MenuPdf>, menuTitle: string): (r: Option<nat>)
    ensures r.Some? ==> r.value < |pdfs| && pdfs[r.value].menuTitle == menuTitle && pdfs[r.value].isActive
    ensures r.Some? ==> forall j :: 0 <= j < r.value ==> !(pdfs[j].menuTitle == menuTitle && pdfs[j].isActive)
    ensures r.None? ==> forall j :: 0 <= j < |pdfs| ==> !(pdfs[j].menuTitle == menuTitle && pdfs[j].isActive)
  {
    if pdfs == [] then None
    else
      var init := pdfs[..|pdfs| - 1];
      var last := pdfs[|pdfs| - 1];
      match FirstActive(init, menuTitle)
      case Some(i) => Some(i)
      case None => if last.menuTitle == menuTitle && last.isActive then Some(|pdfs| - 1) else None
  }

  /** `findById`: the position of the record with that id. */
  function IndexOfId(pdfs: seq<MenuPdf>, id: nat): (r: Option<nat>)
    ensures r.Some? ==> r.value < |pdfs| && pdfs[r.value].id == id
    ensures r.Some? ==> forall j :: 0 <= j < r.value ==> pdfs[j].id != id
    ensures r.None? ==> forall j :: 0 <= j < |pdfs| ==> pdfs[j].id != id
  {
    if pdfs == [] then None
    else
      match IndexOfId(pdfs[..|pdfs| - 1], id)
      case Some(i) => Some(i)
      case None => if pdfs[|pdfs| - 1].id == id then Some(|pdfs| - 1) else None
  }

  /** With increasing ids, the record found by id is the only one with
      it. */
  lemma IdIsUnique(pdfs: seq<MenuPdf>, id: nat, j: nat)
    requires IdsIncreasing(pdfs) && IndexOfId(pdfs, id).Some?
    requires j < |pdfs| && pdfs[j].id == id
    ensures j == IndexOfId(pdfs, id).value
  {
  }

  /** `find({ menuTitle }).sort({ createdAt: -1 })`: the records of that
      title, newest first. */
  function NewestFirst(pdfs: seq<MenuPdf>, menuTitle: string): (r: seq<MenuPdf>)
    ensures forall p :: p in r <==> p in pdfs && p.menuTitle == menuTitle
    ensures |r| <= |pdfs|
  {
    if pdfs == [] then []
    else NewestFirst(pdfs[1..], menuTitle) + (if pdfs[0].menuTitle == menuTitle then [pdfs[0]] else [])
  }

  /** Every listed record precedes, in the stored order, the ones listed
      before it. */
  lemma {:induction false} NewestFirstFromOrder(pdfs: seq<MenuPdf>, menuTitle: string)
    requires IdsIncreasing(pdfs)
    ensures forall i, j :: 0 <= i < j < |NewestFirst(pdfs, menuTitle)| ==>
                NewestFirst(pdfs, menuTitle)[i].id > NewestFirst(pdfs, menuTitle)[j].id
  {
    if pdfs != [] {
      var rest := NewestFirst(pdfs[1..], menuTitle);
      NewestFirstFromOrder(pdfs[1..], menuTitle);
      forall p | p in rest
        ensures p.id > pdfs[0].id
      {
        var k :| 0 <= k < |pdfs[1..]| && pdfs[1..][k] == p;
        assert pdfs[k + 1] == p;
      }
    }
  }

  /** The effect of set-active on one record: the target is switched on,
      and the other records filed under the request's title are switched
      off. */
  function Activated(p: MenuPdf, id: nat, menuTitle: string): MenuPdf {
    if p.id == id then p.(isActive := true)
    else if p.menuTitle == menuTitle then p.(isActive := false)
    else p
  }

  /** The effect of the `updateMany` on one record. */
  function Deactivated(p: MenuPdf, id: nat, menuTitle: string): (r: MenuPdf)
    ensures r.id == p.id && r.menuTitle == p.menuTitle && r.filename == p.filename
    ensures r.isActive == (p.isActive && !(p.id != id && p.menuTitle == menuTitle))
  {
    if p.id != id && p.menuTitle == menuTitle then p.(isActive := false) else p
  }

  /** The collection after a successful set-active. */
  function AfterSetActive(pdfs: seq<MenuPdf>, id: nat, menuTitle: string): (r: seq<MenuPdf>)
    ensures |r| == |pdfs|
    ensures forall j :: 0 <= j < |pdfs| ==> r[j] == Activated(pdfs[j], id, menuTitle)
  {
    seq(|pdfs|, j requires 0 <= j < |pdfs| => Activated(pdfs[j], id, menuTitle))
  }

  /** After set-active of a record filed under the request's title, that
      record is the one served, every other record of the title is off,
      and the records of other titles are untouched. */
  lemma SetActiveServesTarget(pdfs: seq<MenuPdf>, id: nat, menuTitle: string)
    requires IdsIncreasing(pdfs) && IndexOfId(pdfs, id).Some?
    requires pdfs[IndexOfId(pdfs, id).value].menuTitle == menuTitle
    ensures var r := AfterSetActive(pdfs, id, menuTitle);
            && FirstActive(r, menuTitle) == IndexOfId(pdfs, id)
            && (forall j :: 0 <= j < |r| && r[j].menuTitle == menuTitle && r[j].isActive ==> j == IndexOfId(pdfs, id).value)
            && (forall j :: 0 <= j < |r| && pdfs[j].menuTitle != menuTitle ==> r[j] == pdfs[j])
  {
    var r := AfterSetActive(pdfs, id, menuTitle);
    var i := IndexOfId(pdfs, id).value;
    forall j | 0 <= j < |r| && r[j].menuTitle == menuTitle && r[j].isActive
      ensures j == i
    {
      assert pdfs[j].id == id;
      IdIsUnique(pdfs, id, j);
    }
    assert r[i].isActive && r[i].menuTitle == menuTitle;
    var f := FirstActive(r, menuTitle);
    assert f.Some? ==> f.value == i;
  }

  /** An upload leaves the served version alone: `findOne` keeps
      returning the oldest active record of the title. Only when the title
      had no active record does the new one get served. */
  lemma {:induction false} UploadKeepsServedVersion(pdfs: seq<MenuPdf>, p: MenuPdf, menuTitle: string)
    requires p.isActive && p.menuTitle == menuTitle
    ensures FirstActive(pdfs, menuTitle).Some? ==> FirstActive(pdfs + [p], menuTitle) == FirstActive(pdfs, menuTitle)
    ensures FirstActive(pdfs, menuTitle).None? ==> FirstActive(pdfs + [p], menuTitle) == Some(|pdfs|)
  {
    assert (pdfs + [p])[..|pdfs|] == pdfs;
  }

  /** The sequence without its `i`-th element. */
  function RemoveAt(pdfs: seq<MenuPdf>, i: nat): (r: seq<MenuPdf>)
    requires i < |pdfs|
    ensures |r| == |pdfs| - 1
    ensures forall j :: 0 <= j < i ==> r[j] == pdfs[j]
    ensures forall j :: i <= j < |r| ==> r[j] == pdfs[j + 1]
  {
    pdfs[..i] + pdfs[i + 1..]
  }

  /** Removing a record keeps the order of the others, and with increasing
      ids its id is gone. */
  lemma RemoveAtDropsId(pdfs: seq<MenuPdf>, i: nat)
    requires IdsIncreasing(pdfs) && i < |pdfs|
    ensures IdsIncreasing(RemoveAt(pdfs, i))
    ensures IndexOfId(RemoveAt(pdfs, i), pdfs[i].id).None?
  {
    var r := RemoveAt(pdfs, i);
    forall j | 0 <= j < |r|
      ensures r[j].id != pdfs[i].id
    {
      if j < i {
        assert pdfs[j].id < pdfs[i].id;
      } else {
        assert pdfs[i].id < pdfs[j + 1].id;
      }
    }
  }

  /** The `MenuPdf` collection and the upload directory. */
  class PdfStore {
    var pdfs: seq<MenuPdf>
    var files: set<string>
    var nextId: nat

    /** Ids increase in creation order, and the next id is fresh. */
    predicate Valid()
      reads this
    {
      IdsIncreasing(pdfs) && forall j :: 0 <= j < |pdfs| ==> pdfs[j].id < nextId
    }

    constructor ()
      ensures Valid() && pdfs == [] && files == {}
    {
      pdfs := [];
      files := {};
      nextId := 0;
    }

    /** `POST /api/menu/:id/pdf`: multer refuses a non-PDF or a file over
        10 MiB, the handler a missing file; otherwise one active record is
        added under the derived title, whatever other versions exist. */
    method Upload(menuItemId: string, file: Option<UploadedFile>) returns (status: int, created: Option<MenuPdf>)
      requires Valid()
      modifies this
      ensures Valid()
      ensures status == 200 || status == 400
      ensures status == 400 <==> file.None? || file.value.mimetype != PdfMimeType || file.value.size > MaxFileSize
      ensures status == 400 ==> pdfs == old(pdfs) && files == old(files) && created.None?
      ensures status == 200 ==>
                && created == Some(MenuPdf(old(nextId), file.value.originalname, TitleFor(menuItemId),
                                           file.value.filename, file.value.size, file.value.mimetype, true))
                && pdfs == old(pdfs) + [created.value]
                && files == old(files) + {file.value.filename}
    {
      if file.Some? && file.value.mimetype != PdfMimeType {
        return 400, None;
      }
      if file.Some? && file.value.size > MaxFileSize {
        return 400, None;
      }
      if file.None? {
        return 400, None;
      }
      var f := file.value;
      files := files + {f.filename};
      var pdf := MenuPdf(nextId, f.originalname, TitleFor(menuItemId), f.filename, f.size, f.mimetype, true);
      pdfs := pdfs + [pdf];
      nextId := nextId + 1;
      status, created := 200, Some(pdf);
    }

    /** `GET /api/menu-pdfs`: 400 without a `menuTitle`, otherwise every
        record of that title, active or not, newest first. */
    method ListByTitle(menuTitle: Option<string>) returns (status: int, listed: seq<MenuPdf>)
      ensures status == 400 <==> menuTitle.None? || menuTitle.value == []
      ensures status == 400 ==> listed == []
      ensures status != 400 ==> status == 200 && listed == NewestFirst(pdfs, menuTitle.value)
    {
      if menuTitle.None? || menuTitle.value == [] {
        return 400, [];
      }
      status, listed := 200, NewestFirst(pdfs, menuTitle.value);
    }

    /** `GET /api/menu/:id/pdf`: the oldest active record of the title,
        404 when there is none or its file is gone. */
    method GetActive(menuItemId: string) returns (status: int, served: Option<MenuPdf>)
      ensures var found := FirstActive(pdfs, TitleFor(menuItemId));
              && (status == 200 <==> found.Some? && pdfs[found.value].filename in files)
              && (status == 200 ==> served == Some(pdfs[found.value]))
              && (status != 200 ==> status == 404 && served.None?)
    {
      var found := FirstActive(pdfs, TitleFor(menuItemId));
      if found.None? {
        return 404, None;
      }
      var pdf := pdfs[found.value];
      if pdf.filename !in files {
        return 404, None;
      }
      status, served := 200, Some(pdf);
    }

    /** `DELETE /api/menu/:id/pdf`: removes the oldest active record of the
        title and its file, with no authentication. */
    method DeleteActive(menuItemId: string) returns (status: int)
      requires Valid()
      modifies this
      ensures Valid()
      ensures var found := FirstActive(old(pdfs), TitleFor(menuItemId));
              && (status == 404 <==> found.None?)
              && (found.None? ==> pdfs == old(pdfs) && files == old(files))
              && (found.Some? ==> status == 200 && pdfs == RemoveAt(old(pdfs), found.value)
                                  && files == old(files) - {old(pdfs)[found.value].filename})
    {
      var found := FirstActive(pdfs, TitleFor(menuItemId));
      if found.None? {
        return 404;
      }
      var pdf := pdfs[found.value];
      files := files - {pdf.filename};
      RemoveAtDropsId(pdfs, found.value);
      pdfs := RemoveAt(pdfs, found.value);
      status := 200;
    }

    /** `updateMany({ menuTitle, _id: { $ne: id } }, { isActive: false })`:
        every record of the title but the one with the id is switched
        off. */
    method DeactivateOthers(id: nat, title: string)
      modifies this
      ensures files == old(files) && nextId == old(nextId)
      ensures |pdfs| == |old(pdfs)|
      ensures forall j :: 0 <= j < |pdfs| ==> pdfs[j] == Deactivated(old(pdfs)[j], id, title)
    {
      var k := 0;
      while k < |pdfs|
        invariant 0 <= k <= |pdfs| == |old(pdfs)|
        invariant forall j :: 0 <= j < k ==> pdfs[j] == Deactivated(old(pdfs)[j], id, title)
        invariant forall j :: k <= j < |pdfs| ==> pdfs[j] == old(pdfs)[j]
        invariant files == old(files) && nextId == old(nextId)
      {
        pdfs := pdfs[k := Deactivated(pdfs[k], id, title)];
        k := k + 1;
      }
    }

    /** `PUT /api/menu-pdfs/:id/set-active`: after the header checks and
        the `menuTitle` check, every other record filed under the
        request's title is switched off (`updateMany`), then the target is
        switched on. */
    method SetActive(id: nat, header: Option<string>, menuTitle: Option<string>) returns (status: int)
      requires Valid()
      modifies this
      ensures Valid() && files == old(files)
      ensures AuthFailure(header).Some? ==> status == AuthFailure(header).value
      ensures AuthFailure(header).None? && (menuTitle.None? || menuTitle.value == []) ==> status == 400
      ensures AuthFailure(header).None? && menuTitle.Some? && menuTitle.value != [] && IndexOfId(old(pdfs), id).None? ==>
                status == 404
      ensures status != 200 ==> pdfs == old(pdfs)
      ensures status == 200 <==>
                AuthFailure(header).None? && menuTitle.Some? && menuTitle.value != [] && IndexOfId(old(pdfs), id).Some?
      ensures status == 200 ==> pdfs == AfterSetActive(old(pdfs), id, menuTitle.value)
    {
      var failure := AuthFailure(header);
      if failure.Some? {
        return failure.value;
      }
      if menuTitle.None? || menuTitle.value == [] {
        return 400;
      }
      var title := menuTitle.value;
      var target := IndexOfId(pdfs, id);
      if target.None? {
        return 404;
      }
      DeactivateOthers(id, title);
      // pdf.isActive = true; pdf.save()
      var i := target.value;
      pdfs := pdfs[i := pdfs[i].(isActive := true)];
      forall j | 0 <= j < |pdfs|
        ensures pdfs[j] == Activated(old(pdfs)[j], id, title)
      {
        if old(pdfs)[j].id == id {
          IdIsUnique(old(pdfs), id, j);
        }
      }
      status := 200;
    }

    /** `PUT /api/menu-pdfs/:id/deactivate`: switches the target off and
        nothing else. */
    method Deactivate(id: nat, header: Option<string>) returns (status: int)
      requires Valid()
      modifies this
      ensures Valid() && files == old(files)
      ensures AuthFailure(header).Some? ==> status == AuthFailure(header).value && pdfs == old(pdfs)
      ensures AuthFailure(header).None? && IndexOfId(old(pdfs), id).None? ==> status == 404 && pdfs == old(pdfs)
      ensures AuthFailure(header).None? && IndexOfId(old(pdfs), id).Some? ==>
                var i := IndexOfId(old(pdfs), id).value;
                status == 200 && pdfs == old(pdfs)[i := old(pdfs)[i].(isActive := false)]
    {
      var failure := AuthFailure(header);
      if failure.Some? {
        return failure.value;
      }
      var target := IndexOfId(pdfs, id);
      if target.None? {
        return 404;
      }
      var i := target.value;
      pdfs := pdfs[i := pdfs[i].(isActive := false)];
      status := 200;
    }

    /** `DELETE /api/menu-pdfs/:id`: removes the target record and its
        file. */
    method DeleteById(id: nat, header: Option<string>) returns (status: int)
      requires Valid()
      modifies this
      ensures Valid()
      ensures AuthFailure(header).Some? ==> status == AuthFailure(header).value && pdfs == old(pdfs) && files == old(files)
      ensures AuthFailure(header).None? && IndexOfId(old(pdfs), id).None? ==>
                status == 404 && pdfs == old(pdfs) && files == old(files)
      ensures AuthFailure(header).None? && IndexOfId(old(pdfs), id).Some? ==>
                var i := IndexOfId(old(pdfs), id).value;
                && status == 200 && pdfs == RemoveAt(old(pdfs), i)
                && files == old(files) - {old(pdfs)[i].filename}
                && IndexOfId(pdfs, id).None?
    {
      var failure := AuthFailure(header);
      if failure.Some? {
        return failure.value;
      }
      var target := IndexOfId(pdfs, id);
      if target.None? {
        return 404;
      }
      var i := target.value;
      files := files - {pdfs[i].filename};
      RemoveAtDropsId(pdfs, i);
      pdfs := RemoveAt(pdfs, i);
      status := 200;
    }
  }
}
