/**
  The contact rows the crawler returns (app.py:3751-3780): for every page
  with contacts, in the order the pages were first visited, the emails and
  phone numbers not seen on an earlier page, one row per new email (with a
  sample phone) or, for a page without new emails, one row per new phone.

  The emails and phones of a page come as sequences in the order the source
  iterates its sets; phone numbers are normalised again with
  `Phone.NormalizePhone`.
*/
module ContactRows {
  import opened Text
  import opened Seqs
  import opened Phone

  /** A crawled page with contacts: its URL and the emails and phones found on it. */
  datatype PageFound = PageFound(url: string, emails: seq<string>, phones: seq<string>)

  datatype ContactRow = ContactRow(url: string, email: string, phone: string)

  /** `email.lower().strip()`. */
  function EmailKey(email: string): string {
    Strip(Lower(email))
  }

  function Keys(emails: seq<string>): set<string> {
    set e | e in emails :: EmailKey(e)
  }

  /** The emails of a page whose key is not blank and not seen before, first occurrence of each key. */
  function NewEmails(emails: seq<string>, seen: set<string>): seq<string> {
    if emails == [] then []
    else
      var p := NewEmails(emails[..|emails| - 1], seen);
      var e := emails[|emails| - 1];
      var k := EmailKey(e);
      if k == [] || k in seen || k in Keys(p) then p else p + [e]
  }

  /**
    The new emails come from the page, have distinct non-blank keys not seen
    before, and cover every such key of the page.
  */
  lemma {:induction false} NewEmailsSpec(emails: seq<string>, seen: set<string>)
    ensures forall i | 0 <= i < |NewEmails(emails, seen)| ::
      var e := NewEmails(emails, seen)[i];
      e in emails && EmailKey(e) != [] && EmailKey(e) !in seen
    ensures forall i, j | 0 <= i < j < |NewEmails(emails, seen)| ::
      EmailKey(NewEmails(emails, seen)[i]) != EmailKey(NewEmails(emails, seen)[j])
    ensures Keys(NewEmails(emails, seen)) == Keys(emails) - seen - {[]}
  {
    if emails != [] {
      var init := emails[..|emails| - 1];
      var e := emails[|emails| - 1];
      NewEmailsSpec(init, seen);
      var p := NewEmails(init, seen);
      assert emails == init + [e];
      KeysSnoc(init, e);
      if !(EmailKey(e) == [] || EmailKey(e) in seen || EmailKey(e) in Keys(p)) {
        var r := p + [e];
        KeysSnoc(p, e);
        forall i, j | 0 <= i < j < |r| ensures EmailKey(r[i]) != EmailKey(r[j]) {
          if j == |p| {
            assert r[i] in p;
          }
        }
      }
    }
  }

  /** The page's phones, normalised, blank and already seen ones skipped, first occurrences. */
  function NewPhones(phones: seq<string>, seen: set<string>, isDate: DateTest): seq<string> {
    Fresh(NormalizeAll(phones, isDate), seen + {""})
  }

  /** The rows of one page: one per new email with the first new phone, else one per new phone. */
  function PageRows(url: string, newEmails: seq<string>, newPhones: seq<string>): seq<ContactRow> {
    if newEmails != [] then
      var sample := if newPhones != [] then newPhones[0] else "";
      seq(|newEmails|, i requires 0 <= i < |newEmails| => ContactRow(url, newEmails[i], sample))
    else
      seq(|newPhones|, i requires 0 <= i < |newPhones| => ContactRow(url, "", newPhones[i]))
  }

  /** The rows so far with the email keys and phones seen so far. */
  datatype Aggregation = Aggregation(rows: seq<ContactRow>, seenEmails: set<string>, seenPhones: set<string>)

  /** One page of the aggregation loop: its rows appended, its new keys and phones remembered. */
  function AddPage(a: Aggregation, page: PageFound, isDate: DateTest): Aggregation {
    var phones := NewPhones(page.phones, a.seenPhones, isDate);
    var emails := NewEmails(page.emails, a.seenEmails);
    Aggregation(a.rows + PageRows(page.url, emails, phones),
                a.seenEmails + Keys(emails), a.seenPhones + Elems(phones))
  }

  function Aggregate(pages: seq<PageFound>, isDate: DateTest): Aggregation {
    if pages == [] then Aggregation([], {}, {})
    else AddPage(Aggregate(pages[..|pages| - 1], isDate), pages[|pages| - 1], isDate)
  }

  /** Every row with an email has a non-blank key from `seen`, and no key is in two rows. */
  predicate EmailRowsUnique(rows: seq<ContactRow>, seen: set<string>) {
    && (forall i | 0 <= i < |rows| && rows[i].email != [] ::
          EmailKey(rows[i].email) != [] && EmailKey(rows[i].email) in seen)
    && (forall i, j | 0 <= i < j < |rows| && rows[i].email != [] && rows[j].email != [] ::
          EmailKey(rows[i].email) != EmailKey(rows[j].email))
  }

  /** Every row without an email has a non-blank phone from `seen`, and no phone is in two such rows. */
  predicate PhoneRowsUnique(rows: seq<ContactRow>, seen: set<string>) {
    && (forall i | 0 <= i < |rows| && rows[i].email == [] ::
          rows[i].phone != [] && rows[i].phone in seen)
    && (forall i, j | 0 <= i < j < |rows| && rows[i].email == [] && rows[j].email == [] ::
          rows[i].phone != rows[j].phone)
  }

  predicate RowsUnique(a: Aggregation) {
    EmailRowsUnique(a.rows, a.seenEmails) && PhoneRowsUnique(a.rows, a.seenPhones)
  }

  /**
    A page with new emails gives exactly one row per new email, in order, each
    with the page's first new phone or ""; otherwise one row per new phone,
    with no email.
  */
  lemma PageRowsSpec(url: string, newEmails: seq<string>, newPhones: seq<string>)
    ensures var rows := PageRows(url, newEmails, newPhones);
      && (newEmails != [] ==>
            |rows| == |newEmails|
            && forall i | 0 <= i < |rows| ::
                 rows[i].url == url && rows[i].email == newEmails[i]
                 && (rows[i].phone in newPhones || (newPhones == [] && rows[i].phone == ""))
                 && (newPhones != [] ==> rows[i].phone == newPhones[0]))
      && (newEmails == [] ==>
            |rows| == |newPhones| && forall i | 0 <= i < |rows| :: rows[i] == ContactRow(url, "", newPhones[i]))
  {
  }

  lemma EmailRowsAppend(rows: seq<ContactRow>, seen: set<string>, extra: seq<ContactRow>, added: set<string>)
    requires EmailRowsUnique(rows, seen) && EmailRowsUnique(extra, added)
    requires forall k | k in added :: k !in seen
    ensures EmailRowsUnique(rows + extra, seen + added)
  {
    var all := rows + extra;
    forall i, j | 0 <= i < j < |all| && all[i].email != [] && all[j].email != []
      ensures EmailKey(all[i].email) != EmailKey(all[j].email)
    {
      if j < |rows| {
        assert all[i] == rows[i] && all[j] == rows[j];
        assert EmailKey(rows[i].email) != EmailKey(rows[j].email);
      } else if i < |rows| {
        assert all[i] == rows[i] && all[j] == extra[j - |rows|];
        assert EmailKey(all[i].email) in seen && EmailKey(all[j].email) in added;
      } else {
        var i', j' := i - |rows|, j - |rows|;
        assert all[i] == extra[i'] && all[j] == extra[j'];
        assert EmailKey(extra[i'].email) != EmailKey(extra[j'].email);
      }
    }
    forall i | 0 <= i < |all| && all[i].email != []
      ensures EmailKey(all[i].email) != [] && EmailKey(all[i].email) in seen + added
    {
      if i >= |rows| {
        assert all[i] == extra[i - |rows|];
      }
    }
  }

  lemma PhoneRowsAppend(rows: seq<ContactRow>, seen: set<string>, extra: seq<ContactRow>, added: set<string>)
    requires PhoneRowsUnique(rows, seen) && PhoneRowsUnique(extra, added)
    requires forall k | k in added :: k !in seen
    ensures PhoneRowsUnique(rows + extra, seen + added)
  {
    var all := rows + extra;
    forall i, j | 0 <= i < j < |all| && all[i].email == [] && all[j].email == []
      ensures all[i].phone != all[j].phone
    {
      if j < |rows| {
        assert all[i] == rows[i] && all[j] == rows[j];
        assert rows[i].phone != rows[j].phone;
      } else if i < |rows| {
        assert all[i] == rows[i] && all[j] == extra[j - |rows|];
        assert all[i].phone in seen && all[j].phone in added;
      } else {
        var i', j' := i - |rows|, j - |rows|;
        assert all[i] == extra[i'] && all[j] == extra[j'];
        assert extra[i'].phone != extra[j'].phone;
      }
    }
    forall i | 0 <= i < |all| && all[i].email == []
      ensures all[i].phone != [] && all[i].phone in seen + added
    {
      if i >= |rows| {
        assert all[i] == extra[i - |rows|];
      }
    }
  }

  /** An email whose key is not blank is not blank itself. */
  lemma BlankEmailKey(email: string)
    requires EmailKey(email) != []
    ensures email != []
  {
    assert EmailKey([]) == [];
  }

  /** The rows of one page are unique on their own, over the page's new keys and phones. */
  lemma PageRowsUnique(url: string, page: PageFound, seenEmails: set<string>, seenPhones: set<string>, isDate: DateTest)
    ensures var emails := NewEmails(page.emails, seenEmails);
      var phones := NewPhones(page.phones, seenPhones, isDate);
      EmailRowsUnique(PageRows(url, emails, phones), Keys(emails))
      && PhoneRowsUnique(PageRows(url, emails, phones), Elems(phones))
      && (forall k | k in Keys(emails) :: k !in seenEmails) && (forall k | k in Elems(phones) :: k !in seenPhones)
  {
    var emails := NewEmails(page.emails, seenEmails);
    var phones := NewPhones(page.phones, seenPhones, isDate);
    NewEmailsSpec(page.emails, seenEmails);
    FreshSpec(NormalizeAll(page.phones, isDate), seenPhones + {""});
    PageRowsSpec(url, emails, phones);
    var rows := PageRows(url, emails, phones);
    if emails != [] {
      forall i | 0 <= i < |rows| ensures rows[i].email != [] {
        BlankEmailKey(emails[i]);
      }
    } else {
      forall i | 0 <= i < |rows| ensures rows[i].phone != [] && rows[i].phone in Elems(phones) {
        assert phones[i] in phones;
      }
    }
  }

  /**
    The crawl's rows never repeat an email key (non-blank, compared trimmed
    and in lower case), and the rows without an email never repeat a phone.
  */
  lemma {:induction false} AggregateUnique(pages: seq<PageFound>, isDate: DateTest)
    ensures RowsUnique(Aggregate(pages, isDate))
  {
    if pages != [] {
      var a := Aggregate(pages[..|pages| - 1], isDate);
      var page := pages[|pages| - 1];
      AggregateUnique(pages[..|pages| - 1], isDate);
      PageRowsUnique(page.url, page, a.seenEmails, a.seenPhones, isDate);
      var emails := NewEmails(page.emails, a.seenEmails);
      var phones := NewPhones(page.phones, a.seenPhones, isDate);
      var extra := PageRows(page.url, emails, phones);
      EmailRowsAppend(a.rows, a.seenEmails, extra, Keys(emails));
      PhoneRowsAppend(a.rows, a.seenPhones, extra, Elems(phones));
    }
  }

  /** Some row carries an email with this key. */
  predicate HasEmailRow(rows: seq<ContactRow>, key: string) {
    exists i :: 0 <= i < |rows| && EmailKey(rows[i].email) == key
  }

  /** Every email key seen has a row. */
  lemma {:induction false} AggregateSeenHaveRows(pages: seq<PageFound>, isDate: DateTest)
    ensures forall k | k in Aggregate(pages, isDate).seenEmails :: HasEmailRow(Aggregate(pages, isDate).rows, k)
  {
    if pages != [] {
      AggregateSeenHaveRows(pages[..|pages| - 1], isDate);
      AddPageHasRows(Aggregate(pages[..|pages| - 1], isDate), pages[|pages| - 1], isDate);
    }
  }

  /** One page keeps every seen key backed by a row. */
  lemma AddPageHasRows(a: Aggregation, page: PageFound, isDate: DateTest)
    requires forall k | k in a.seenEmails :: HasEmailRow(a.rows, k)
    ensures forall k | k in AddPage(a, page, isDate).seenEmails :: HasEmailRow(AddPage(a, page, isDate).rows, k)
  {
    var emails := NewEmails(page.emails, a.seenEmails);
    var extra := PageRows(page.url, emails, NewPhones(page.phones, a.seenPhones, isDate));
    PageRowsHaveKeys(page.url, emails, NewPhones(page.phones, a.seenPhones, isDate));
    forall k | k in a.seenEmails + Keys(emails) ensures HasEmailRow(a.rows + extra, k) {
      HasEmailRowAppend(a.rows, extra, k);
    }
  }

  /** A key with a row on either side has one in the concatenation. */
  lemma HasEmailRowAppend(rows: seq<ContactRow>, extra: seq<ContactRow>, k: string)
    requires HasEmailRow(rows, k) || HasEmailRow(extra, k)
    ensures HasEmailRow(rows + extra, k)
  {
    if HasEmailRow(rows, k) {
      var i :| 0 <= i < |rows| && EmailKey(rows[i].email) == k;
      assert (rows + extra)[i] == rows[i];
    } else {
      var j :| 0 <= j < |extra| && EmailKey(extra[j].email) == k;
      assert (rows + extra)[|rows| + j] == extra[j];
    }
  }

  /** Every key of the page's new emails has a row of the page. */
  lemma PageRowsHaveKeys(url: string, newEmails: seq<string>, newPhones: seq<string>)
    ensures forall k | k in Keys(newEmails) :: HasEmailRow(PageRows(url, newEmails, newPhones), k)
  {
    var rows := PageRows(url, newEmails, newPhones);
    forall k | k in Keys(newEmails) ensures HasEmailRow(rows, k) {
      var e :| e in newEmails && EmailKey(e) == k;
      var j :| 0 <= j < |newEmails| && newEmails[j] == e;
      assert rows[j].email == e;
    }
  }

  /** A non-blank key found on a page is seen. */
  lemma {:induction false} AggregateSeesKey(pages: seq<PageFound>, isDate: DateTest, p: PageFound, e: string)
    requires p in pages && e in p.emails && EmailKey(e) != []
    ensures EmailKey(e) in Aggregate(pages, isDate).seenEmails
  {
    var init := pages[..|pages| - 1];
    var page := pages[|pages| - 1];
    if p == page {
      AddPageSeesKey(Aggregate(init, isDate), page, isDate, e);
    } else {
      assert pages == init + [page];
      AggregateSeesKey(init, isDate, p, e);
    }
  }

  /** After a page, every non-blank key of its emails is seen. */
  lemma AddPageSeesKey(a: Aggregation, page: PageFound, isDate: DateTest, e: string)
    requires e in page.emails && EmailKey(e) != []
    ensures EmailKey(e) in AddPage(a, page, isDate).seenEmails
  {
    NewEmailsSpec(page.emails, a.seenEmails);
    assert EmailKey(e) in Keys(page.emails);
  }

  /** Every non-blank email key found on any page ends up in a row. */
  lemma AggregateKeepsEveryEmail(pages: seq<PageFound>, isDate: DateTest, p: PageFound, e: string)
    requires p in pages && e in p.emails && EmailKey(e) != []
    ensures HasEmailRow(Aggregate(pages, isDate).rows, EmailKey(e))
  {
    AggregateSeesKey(pages, isDate, p, e);
    AggregateSeenHaveRows(pages, isDate);
  }

  lemma KeysSnoc(emails: seq<string>, e: string)
    ensures Keys(emails + [e]) == Keys(emails) + {EmailKey(e)}
  {
    forall k ensures k in Keys(emails + [e]) <==> k in Keys(emails) + {EmailKey(e)} {
      if k in Keys(emails + [e]) {
        var x :| x in emails + [e] && EmailKey(x) == k;
        if x != e {
          assert x in emails;
        }
      }
    }
  }

  /** The emails of a page that are new, as the inner loop finds them. */
  method CollectNewEmails(emails: seq<string>, seen: set<string>) returns (found: seq<string>, seenAfter: set<string>)
    ensures found == NewEmails(emails, seen)
    ensures seenAfter == seen + Keys(found)
  {
    found := [];
    seenAfter := seen;
    var i := 0;
    while i < |emails|
      invariant 0 <= i <= |emails|
      invariant found == NewEmails(emails[..i], seen)
      invariant seenAfter == seen + Keys(found)
    {
      assert emails[..i + 1][..i] == emails[..i];
      var key := Strip(Lower(emails[i]));
      if key != [] && key !in seenAfter {
        KeysSnoc(found, emails[i]);
        seenAfter := seenAfter + {key};
        found := found + [emails[i]];
      }
      i := i + 1;
    }
    assert emails[..i] == emails;
  }

  /** The phones of a page that are new, as the inner loop finds them. */
  method CollectNewPhones(phones: seq<string>, seen: set<string>, isDate: DateTest)
    returns (found: seq<string>, seenAfter: set<string>)
    requires "" !in seen
    ensures found == NewPhones(phones, seen, isDate)
    ensures seenAfter == seen + Elems(found)
  {
    found, seenAfter := FreshNumbers(NormalizeAll(phones, isDate), seen);
  }

  /** Appends the rows of one page, one email or one phone at a time. */
  method AppendPageRows(rows: seq<ContactRow>, url: string, newEmails: seq<string>, newPhones: seq<string>)
    returns (out: seq<ContactRow>)
    ensures out == rows + PageRows(url, newEmails, newPhones)
  {
    out := rows;
    var extra := PageRows(url, newEmails, newPhones);
    if newEmails != [] {
      var sample := if newPhones != [] then newPhones[0] else "";
      var k := 0;
      while k < |newEmails|
        invariant 0 <= k <= |newEmails|
        invariant out == rows + extra[..k]
      {
        assert extra[..k + 1] == extra[..k] + [ContactRow(url, newEmails[k], sample)];
        out := out + [ContactRow(url, newEmails[k], sample)];
        k := k + 1;
      }
    } else {
      var k := 0;
      while k < |newPhones|
        invariant 0 <= k <= |newPhones|
        invariant out == rows + extra[..k]
      {
        assert extra[..k + 1] == extra[..k] + [ContactRow(url, "", newPhones[k])];
        out := out + [ContactRow(url, "", newPhones[k])];
        k := k + 1;
      }
    }
    assert extra[..|extra|] == extra;
  }

  /** The aggregation loop at the end of `crawl`. */
  method AggregateRows(pages: seq<PageFound>, isDate: DateTest) returns (rows: seq<ContactRow>)
    ensures rows == Aggregate(pages, isDate).rows
  {
    rows := [];
    var seenEmails: set<string> := {};
    var seenPhones: set<string> := {};
    var i := 0;
    while i < |pages|
      invariant 0 <= i <= |pages|
      invariant Aggregate(pages[..i], isDate) == Aggregation(rows, seenEmails, seenPhones)
      invariant "" !in seenPhones
    {
      assert pages[..i + 1][..i] == pages[..i];
      var page := pages[i];
      FreshSpec(NormalizeAll(page.phones, isDate), seenPhones + {""});
      var newPhones, phonesAfter := CollectNewPhones(page.phones, seenPhones, isDate);
      var newEmails, emailsAfter := CollectNewEmails(page.emails, seenEmails);
      rows := AppendPageRows(rows, page.url, newEmails, newPhones);
      seenEmails := emailsAfter;
      seenPhones := phonesAfter;
      i := i + 1;
    }
    assert pages[..i] == pages;
  }
}
