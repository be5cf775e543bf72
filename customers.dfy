/** The customer table as the booking handlers keep it up to date: a
    customer is found by e-mail, and each booking either bumps an existing
    customer's visit count or creates the customer. The two servers update
    an existing customer differently. */
module Customers {
  import opened JsValues

  /** A customer document. `visits` and `lastVisit` may be missing on a
      customer created by other means. */
  datatype Customer = Customer(
    name: string,
    email: string,
    phone: Option<string>,
    visits: Option<int>,
    lastVisit: Option<string>)

  /** `Customer.findOne({ email })`: the first customer, in table order,
      with that e-mail. */
  function FindByEmail(cs: seq<Customer>, email: string): (r: Option<nat>)
    ensures r.Some? ==> r.value < |cs| && cs[r.value].email == email
    ensures r.Some? ==> forall j :: 0 <= j < r.value ==> cs[j].email != email
    ensures r.None? ==> forall j :: 0 <= j < |cs| ==> cs[j].email != email
  {
    if cs == [] then None
    else if cs[|cs| - 1].email != email then FindByEmail(cs[..|cs| - 1], email)
    else match FindByEmail(cs[..|cs| - 1], email)
      case Some(i) => Some(i)
      case None => Some(|cs| - 1)
  }

  /** `(visits || 0) + 1` */
  function NextVisits(v: Option<int>): int {
    if v.Some? && v.value != 0 then v.value + 1 else 1
  }

  /** server-mongodb.js, after the booking is stored: an existing customer
      gets one more visit, the booking date as last visit and the new name,
      and keeps the old phone when no phone was given; otherwise a new
      customer is appended with one visit. */
  function Upserted(cs: seq<Customer>, name: string, email: string, phone: Option<string>, date: string): seq<Customer>
  {
    match FindByEmail(cs, email)
    case Some(i) =>
      cs[i := cs[i].(visits := Some(NextVisits(cs[i].visits)), lastVisit := Some(date), name := name,
                     phone := if phone.Some? then phone else cs[i].phone)]
    case None => cs + [Customer(name, email, phone, Some(1), Some(date))]
  }

  /** server.js, before the booking is stored: an existing customer gets
      one more visit, `today` as last visit, and name and phone overwritten
      (a missing phone clears it); otherwise a new customer is appended with
      one visit and the booking date. */
  function UpsertedLegacy(cs: seq<Customer>, name: string, email: string, phone: Option<string>,
                          date: Option<string>, today: string): seq<Customer>
  {
    match FindByEmail(cs, email)
    case Some(i) =>
      cs[i := cs[i].(visits := Some(NextVisits(cs[i].visits)), lastVisit := Some(today), name := name, phone := phone)]
    case None => cs + [Customer(name, email, phone, Some(1), date)]
  }

  /** Every customer with another e-mail is left as it was. */
  predicate OthersUnchanged(cs: seq<Customer>, cs': seq<Customer>, email: string) {
    && |cs| <= |cs'|
    && forall j :: 0 <= j < |cs| && cs[j].email != email ==> cs'[j] == cs[j]
  }

  /** The server-mongodb.js upsert: when the e-mail is known, the first
      customer with it is the only one changed, with visits `(v || 0) + 1`,
      the booking date, the new name, and the phone replaced only by a
      given one; when it is not, exactly one customer is added, with one
      visit. */
  lemma UpsertedSpec(cs: seq<Customer>, name: string, email: string, phone: Option<string>, date: string)
    ensures var cs' := Upserted(cs, name, email, phone, date);
            && OthersUnchanged(cs, cs', email)
            && (FindByEmail(cs, email).Some? ==>
                  var i := FindByEmail(cs, email).value;
                  && |cs'| == |cs|
                  && (forall j :: 0 <= j < |cs| && j != i ==> cs'[j] == cs[j])
                  && cs'[i].email == email && cs'[i].name == name
                  && cs'[i].visits == Some(if cs[i].visits.Some? && cs[i].visits.value != 0 then cs[i].visits.value + 1 else 1)
                  && cs'[i].lastVisit == Some(date)
                  && cs'[i].phone == (if phone.Some? then phone else cs[i].phone))
            && (FindByEmail(cs, email).None? ==>
                  cs' == cs + [Customer(name, email, phone, Some(1), Some(date))])
  {
  }

  /** The server.js upsert: the same, except that the last visit is
      `today` and the phone is overwritten even by a missing one. */
  lemma UpsertedLegacySpec(cs: seq<Customer>, name: string, email: string, phone: Option<string>,
                           date: Option<string>, today: string)
    ensures var cs' := UpsertedLegacy(cs, name, email, phone, date, today);
            && OthersUnchanged(cs, cs', email)
            && (FindByEmail(cs, email).Some? ==>
                  var i := FindByEmail(cs, email).value;
                  && |cs'| == |cs|
                  && (forall j :: 0 <= j < |cs| && j != i ==> cs'[j] == cs[j])
                  && cs'[i].email == email && cs'[i].name == name && cs'[i].phone == phone
                  && cs'[i].lastVisit == Some(today)
                  && cs'[i].visits == Some(NextVisits(cs[i].visits)))
            && (FindByEmail(cs, email).None? ==>
                  cs' == cs + [Customer(name, email, phone, Some(1), date)])
  {
  }

  /** After an upsert the e-mail is known, and a second upsert with the same
      e-mail changes the same customer rather than adding another. */
  lemma {:induction false} UpsertFindsCustomer(cs: seq<Customer>, name: string, email: string, phone: Option<string>, date: string)
    ensures var cs' := Upserted(cs, name, email, phone, date);
            && FindByEmail(cs', email).Some?
            && |cs'| == |cs| + (if FindByEmail(cs, email).Some? then 0 else 1)
            && (FindByEmail(cs, email).Some? ==> FindByEmail(cs', email) == FindByEmail(cs, email))
  {
    var cs' := Upserted(cs, name, email, phone, date);
    match FindByEmail(cs, email)
    case Some(i) =>
      FindByEmailStable(cs, cs', email, i);
    case None =>
      assert cs'[..|cs'| - 1] == cs;
  }

  /** Changing customers without touching e-mails, or touching only the one
      found, keeps the first match where it was. */
  lemma FindByEmailStable(cs: seq<Customer>, cs': seq<Customer>, email: string, i: nat)
    requires FindByEmail(cs, email) == Some(i)
    requires |cs'| == |cs| && forall j :: 0 <= j < |cs| ==> cs'[j].email == cs[j].email
    ensures FindByEmail(cs', email) == Some(i)
  {
    FirstWithEmail(cs', email, i);
  }

  /** The customer found is the first one with the e-mail. */
  lemma {:induction false} FirstWithEmail(cs: seq<Customer>, email: string, i: nat)
    requires i < |cs| && cs[i].email == email
    requires forall j :: 0 <= j < i ==> cs[j].email != email
    ensures FindByEmail(cs, email) == Some(i)
  {
    if i < |cs| - 1 {
      FirstWithEmail(cs[..|cs| - 1], email, i);
    }
  }

  /** Two bookings with the same e-mail by a new customer leave one customer
      with two visits, last seen on the second date. */
  lemma TwoBookingsOneCustomer(cs: seq<Customer>, name: string, email: string, phone: Option<string>,
                               date1: string, date2: string)
    requires FindByEmail(cs, email).None?
    ensures var cs2 := Upserted(Upserted(cs, name, email, phone, date1), name, email, phone, date2);
            && |cs2| == |cs| + 1
            && cs2[|cs|] == Customer(name, email, phone, Some(2), Some(date2))
  {
    var cs1 := Upserted(cs, name, email, phone, date1);
    assert cs1 == cs + [Customer(name, email, phone, Some(1), Some(date1))];
    assert cs1[..|cs1| - 1] == cs;
    assert FindByEmail(cs1, email) == Some(|cs|);
  }
}
