/**
  Work sites and the rule that no two of them share a name and an address,
  compared without surrounding blanks and without case: `_site_exists`
  (app.py:4292-4304) and the site branch of `admin_sites`
  (app.py:5190-5240), with its create, update, delete and bulk update.

  A missing address is the empty string: `_site_exists` never matches it,
  exactly as SQL never matches a NULL address. Ids are positive, as the
  database hands them out.
*/
module Sites {
  import opened Wrappers
  import opened Text

  datatype Site = Site(name: string, address: string)

  /** The pair a name and an address are compared by. */
  function PairOf(name: string, address: string): (string, string) {
    (Lower(Strip(name)), Lower(Strip(address)))
  }

  /** The pair the database compares a stored site by, `func.lower` of both columns. */
  function StoredPair(s: Site): (string, string) {
    (Lower(s.name), Lower(s.address))
  }

  /** `if exclude_id:` then the site with that id does not count. */
  predicate Excluded(exclude: Option<int>, id: int) {
    exclude.Some? && exclude.value != 0 && id == exclude.value
  }

  /** `_site_exists`: a blank name or address matches nothing. */
  predicate SiteExists(sites: map<int, Site>, name: string, address: string, exclude: Option<int>) {
    var pair := PairOf(name, address);
    pair.0 != [] && pair.1 != []
    && exists id | id in sites :: !Excluded(exclude, id) && StoredPair(sites[id]) == pair
  }

  /**
    `_site_exists` is false for a blank name or address; otherwise it is true
    exactly when some site other than the excluded one has the same pair,
    whatever the case of the given name and address.
  */
  lemma SiteExistsSpec(sites: map<int, Site>, name: string, address: string, exclude: Option<int>)
    ensures Strip(name) == [] || Strip(address) == [] ==> !SiteExists(sites, name, address, exclude)
    ensures Strip(name) != [] && Strip(address) != [] ==>
      (SiteExists(sites, name, address, exclude) <==>
       exists id | id in sites :: !Excluded(exclude, id) && StoredPair(sites[id]) == PairOf(name, address))
    ensures forall id | id in sites && Trimmed(sites[id].name) && Trimmed(sites[id].address)
                        && sites[id].name != [] && sites[id].address != [] ::
      SiteExists(sites, sites[id].name, sites[id].address, None)
      && SiteExists(sites, Upper(sites[id].name), Lower(sites[id].address), None)
  {
    forall id | id in sites && Trimmed(sites[id].name) && Trimmed(sites[id].address)
                && sites[id].name != [] && sites[id].address != []
      ensures SiteExists(sites, sites[id].name, sites[id].address, None)
      ensures SiteExists(sites, Upper(sites[id].name), Lower(sites[id].address), None)
    {
      var s := sites[id];
      StripOfTrimmed(s.name);
      StripOfTrimmed(s.address);
      UpperKeepsTrimmed(s.name);
      LowerKeepsTrimmed(s.address);
      StripOfTrimmed(Upper(s.name));
      StripOfTrimmed(Lower(s.address));
      LowerOfUpper(s.name);
      LowerIdempotent(s.address);
    }
  }

  lemma LowerIdempotent(s: string)
    ensures Lower(Lower(s)) == Lower(s)
  {
  }

  /**
    The table invariant the routes keep: names and addresses are stored
    without surrounding blanks, and no two sites with a name and an address
    share their pair.
  */
  predicate Consistent(sites: map<int, Site>) {
    && (forall id | id in sites :: id > 0 && Trimmed(sites[id].name) && Trimmed(sites[id].address))
    && (forall i, j | i in sites && j in sites && i != j && sites[i].name != [] && sites[i].address != [] ::
          StoredPair(sites[i]) != StoredPair(sites[j]))
  }

  datatype SiteOutcome = Saved | Duplicate | Ignored

  /** The create action: both fields are required, and a duplicate pair is refused. */
  function CreateSite(sites: map<int, Site>, id: int, nameField: string, addressField: string)
    : (SiteOutcome, map<int, Site>)
  {
    var name := Strip(nameField);
    var address := Strip(addressField);
    if name == [] || address == [] then (Ignored, sites)
    else if SiteExists(sites, name, address, None) then (Duplicate, sites)
    else (Saved, sites[id := Site(name, address)])
  }

  /**
    The update action on an existing site: a blank field keeps the stored
    value; the result may not share its pair with another site.
  */
  function UpdateSite(sites: map<int, Site>, id: int, nameField: string, addressField: string)
    : (SiteOutcome, map<int, Site>)
  {
    if id !in sites then (Ignored, sites)
    else
      var name := if Strip(nameField) != [] then Strip(nameField) else sites[id].name;
      var address := if Strip(addressField) != [] then Strip(addressField) else sites[id].address;
      if SiteExists(sites, name, address, Some(id)) then (Duplicate, sites)
      else (Saved, sites[id := Site(name, address)])
  }

  /** A site whose pair is new to every other site keeps the table valid. */
  lemma PutKeepsConsistent(sites: map<int, Site>, id: int, name: string, address: string)
    requires Consistent(sites)
    requires id > 0 && Trimmed(name) && Trimmed(address)
    requires name != [] && address != []
    requires forall j | j in sites && j != id :: StoredPair(sites[j]) != (Lower(name), Lower(address))
    ensures Consistent(sites[id := Site(name, address)])
  {
    var r := sites[id := Site(name, address)];
    forall i, j | i in r && j in r && i != j && r[i].name != [] && r[i].address != []
      ensures StoredPair(r[i]) != StoredPair(r[j])
    {
      if i == id {
        assert StoredPair(r[i]) == (Lower(name), Lower(address));
      } else if j == id {
        assert StoredPair(r[j]) == (Lower(name), Lower(address));
      }
    }
  }

  /**
    Creating saves the stripped fields under the new id exactly when both
    are filled in and no site has their pair; every route keeps the table
    valid.
  */
  lemma CreateSiteSpec(sites: map<int, Site>, id: int, nameField: string, addressField: string)
    requires Consistent(sites) && id > 0 && id !in sites
    ensures var (outcome, after) := CreateSite(sites, id, nameField, addressField);
      && (outcome == Saved <==> Strip(nameField) != [] && Strip(addressField) != []
                                && !SiteExists(sites, nameField, addressField, None))
      && (outcome == Saved ==> after == sites[id := Site(Strip(nameField), Strip(addressField))])
      && (outcome != Saved ==> after == sites)
      && Consistent(after)
  {
    var name := Strip(nameField);
    var address := Strip(addressField);
    StripIdempotent(nameField);
    StripIdempotent(addressField);
    StripIsTrimmed(nameField);
    StripIsTrimmed(addressField);
    if name != [] && address != [] && !SiteExists(sites, name, address, None) {
      PutKeepsConsistent(sites, id, name, address);
    }
  }

  /**
    Updating changes only the site with that id, to the filled-in fields or
    the stored values, and only when the resulting pair is not another
    site's; the table stays valid.
  */
  lemma UpdateSiteSpec(sites: map<int, Site>, id: int, nameField: string, addressField: string)
    requires Consistent(sites)
    ensures var (outcome, after) := UpdateSite(sites, id, nameField, addressField);
      && (id !in sites ==> outcome == Ignored)
      && (outcome != Saved ==> after == sites)
      && (outcome == Saved ==>
            && after.Keys == sites.Keys
            && (forall j | j in sites && j != id :: after[j] == sites[j])
            && after[id].name == (if Strip(nameField) != [] then Strip(nameField) else sites[id].name)
            && after[id].address == (if Strip(addressField) != [] then Strip(addressField) else sites[id].address))
      && Consistent(after)
  {
    UpdateKeepsConsistent(sites, id, nameField, addressField);
  }

  lemma UpdateKeepsConsistent(sites: map<int, Site>, id: int, nameField: string, addressField: string)
    requires Consistent(sites)
    ensures Consistent(UpdateSite(sites, id, nameField, addressField).1)
  {
    if id in sites {
      var name := if Strip(nameField) != [] then Strip(nameField) else sites[id].name;
      var address := if Strip(addressField) != [] then Strip(addressField) else sites[id].address;
      StripIsTrimmed(nameField);
      StripIsTrimmed(addressField);
      StripOfTrimmed(name);
      StripOfTrimmed(address);
      if !SiteExists(sites, name, address, Some(id)) {
        if name != [] && address != [] {
          PutKeepsConsistent(sites, id, name, address);
        } else {
          UpdateBlankKeepsConsistent(sites, id, name, address);
        }
      }
    }
  }

  /** A site without a name or an address never clashes. */
  lemma UpdateBlankKeepsConsistent(sites: map<int, Site>, id: int, name: string, address: string)
    requires Consistent(sites) && id in sites && Trimmed(name) && Trimmed(address)
    requires name == [] || address == []
    ensures Consistent(sites[id := Site(name, address)])
  {
    var r := sites[id := Site(name, address)];
    forall i, j | i in r && j in r && i != j && r[i].name != [] && r[i].address != []
      ensures StoredPair(r[i]) != StoredPair(r[j])
    {
      if j == id {
        assert |Lower(r[j].name)| == |r[j].name| && |Lower(r[j].address)| == |r[j].address|;
      }
    }
  }

  /** The delete action. */
  function DeleteSite(sites: map<int, Site>, id: int): map<int, Site> {
    sites - {id}
  }

  lemma DeleteSiteSpec(sites: map<int, Site>, id: int)
    requires Consistent(sites)
    ensures DeleteSite(sites, id).Keys == sites.Keys - {id}
    ensures forall j | j in DeleteSite(sites, id) :: DeleteSite(sites, id)[j] == sites[j]
    ensures Consistent(DeleteSite(sites, id))
  {
  }

  // ---------------------------------------------------------------------------
  // The bulk update

  /** One row of the bulk form: the site id (`None` for a blank field), a name and an address. */
  datatype BulkRow = BulkRow(id: Option<int>, name: string, address: string)

  /** `zip(ids, names, addresses)`: as many rows as the shortest list. */
  function Zip3(ids: seq<Option<int>>, names: seq<string>, addresses: seq<string>): (r: seq<BulkRow>)
    ensures |r| <= |ids| && |r| <= |names| && |r| <= |addresses|
    ensures |r| == |ids| || |r| == |names| || |r| == |addresses|
    ensures forall i | 0 <= i < |r| :: r[i] == BulkRow(ids[i], names[i], addresses[i])
  {
    var n := if |ids| <= |names| && |ids| <= |addresses| then |ids|
             else if |names| <= |addresses| then |names| else |addresses|;
    seq(n, i requires 0 <= i < n => BulkRow(ids[i], names[i], addresses[i]))
  }

  /**
    One row: skipped when a field is blank or its pair came earlier in the
    batch; otherwise its pair is remembered and the site, when it exists,
    takes the row's fields unless another site had that pair before the batch.
  */
  function BulkStep(snapshot: map<int, Site>, current: map<int, Site>, seen: set<(string, string)>, row: BulkRow)
    : (map<int, Site>, set<(string, string)>)
  {
    var name := Strip(row.name);
    var address := Strip(row.address);
    if row.id.None? || name == [] || address == [] then (current, seen)
    else
      var pair := (Lower(name), Lower(address));
      if pair in seen then (current, seen)
      else if row.id.value in current && !SiteExists(snapshot, name, address, Some(row.id.value)) then
        (current[row.id.value := Site(name, address)], seen + {pair})
      else (current, seen + {pair})
  }

  /** The table and the remembered pairs after the rows, all checked against the table before the batch. */
  function BulkFold(snapshot: map<int, Site>, rows: seq<BulkRow>): (map<int, Site>, set<(string, string)>) {
    if rows == [] then (snapshot, {})
    else
      var (current, seen) := BulkFold(snapshot, rows[..|rows| - 1]);
      BulkStep(snapshot, current, seen, rows[|rows| - 1])
  }

  /** The bulk update's effect on the table. */
  function BulkUpdate(snapshot: map<int, Site>, rows: seq<BulkRow>): map<int, Site> {
    BulkFold(snapshot, rows).0
  }

  /** A changed site holds filled-in, stripped fields, and no other site had its pair before the batch. */
  predicate ChangedWell(snapshot: map<int, Site>, current: map<int, Site>, seen: set<(string, string)>, k: int)
    requires k in current
  {
    && current[k].name != [] && current[k].address != []
    && Trimmed(current[k].name) && Trimmed(current[k].address)
    && StoredPair(current[k]) in seen
    && (forall j | j in snapshot && j != k :: StoredPair(snapshot[j]) != StoredPair(current[k]))
  }

  predicate BulkInv(snapshot: map<int, Site>, current: map<int, Site>, seen: set<(string, string)>) {
    && current.Keys == snapshot.Keys
    && (forall k | k in current :: current[k] == snapshot[k] || ChangedWell(snapshot, current, seen, k))
    && (forall k, k' | k in current && k' in current && k != k'
          && current[k] != snapshot[k] && current[k'] != snapshot[k'] ::
          StoredPair(current[k]) != StoredPair(current[k']))
  }

  lemma BulkStepInv(snapshot: map<int, Site>, current: map<int, Site>, seen: set<(string, string)>, row: BulkRow)
    requires BulkInv(snapshot, current, seen)
    ensures var (c, s) := BulkStep(snapshot, current, seen, row); BulkInv(snapshot, c, s) && seen <= s
  {
    var name := Strip(row.name);
    var address := Strip(row.address);
    if row.id.Some? && name != [] && address != [] {
      var pair := (Lower(name), Lower(address));
      var id := row.id.value;
      var s := seen + {pair};
      assert forall k | k in current && current[k] != snapshot[k] :: ChangedWell(snapshot, current, s, k);
      if pair !in seen && id in current && !SiteExists(snapshot, name, address, Some(id)) {
        StripIsTrimmed(row.name);
        StripIsTrimmed(row.address);
        StripIdempotent(row.name);
        StripIdempotent(row.address);
        var c := current[id := Site(name, address)];
        assert StoredPair(c[id]) == pair;
        assert forall j | j in snapshot && j != id :: StoredPair(snapshot[j]) != pair;
        assert ChangedWell(snapshot, c, s, id);
        forall k | k in c
          ensures c[k] == snapshot[k] || ChangedWell(snapshot, c, s, k)
        {
          if k != id {
            assert c[k] == current[k];
          }
        }
      }
    }
  }

  lemma {:induction false} BulkFoldInv(snapshot: map<int, Site>, rows: seq<BulkRow>)
    ensures BulkInv(snapshot, BulkFold(snapshot, rows).0, BulkFold(snapshot, rows).1)
  {
    if rows != [] {
      BulkFoldInv(snapshot, rows[..|rows| - 1]);
      var (current, seen) := BulkFold(snapshot, rows[..|rows| - 1]);
      BulkStepInv(snapshot, current, seen, rows[|rows| - 1]);
    }
  }

  /**
    The bulk update creates and removes no site; every site it changes holds
    filled-in, stripped fields whose pair no other site had; and a valid table
    stays valid, even when two rows name the same pair or swap pairs.
  */
  lemma BulkUpdateSpec(snapshot: map<int, Site>, rows: seq<BulkRow>)
    requires Consistent(snapshot)
    ensures BulkUpdate(snapshot, rows).Keys == snapshot.Keys
    ensures forall k | k in snapshot && BulkUpdate(snapshot, rows)[k] != snapshot[k] ::
      var s := BulkUpdate(snapshot, rows)[k];
      && s.name != [] && s.address != [] && Trimmed(s.name) && Trimmed(s.address)
      && (forall j | j in snapshot && j != k :: StoredPair(snapshot[j]) != StoredPair(s))
    ensures Consistent(BulkUpdate(snapshot, rows))
  {
    BulkFoldInv(snapshot, rows);
    var (r, seen) := BulkFold(snapshot, rows);
    forall i, j | i in r && j in r && i != j && r[i].name != [] && r[i].address != []
      ensures StoredPair(r[i]) != StoredPair(r[j])
    {
      if r[i] == snapshot[i] && r[j] != snapshot[j] {
        assert ChangedWell(snapshot, r, seen, j);
      } else if r[i] != snapshot[i] && r[j] == snapshot[j] {
        assert ChangedWell(snapshot, r, seen, i);
      }
    }
  }

  /** A row repeating the pair of an earlier row, in any case, changes nothing. */
  lemma BulkRepeatedPairIgnored(snapshot: map<int, Site>, rows: seq<BulkRow>, row: BulkRow)
    requires exists k | 0 <= k < |rows| ::
      (rows[k].id.Some? && Strip(rows[k].name) != [] && Strip(rows[k].address) != []
       && PairOf(rows[k].name, rows[k].address) == PairOf(row.name, row.address))
    ensures BulkUpdate(snapshot, rows + [row]) == BulkUpdate(snapshot, rows)
  {
    var k :| 0 <= k < |rows| && rows[k].id.Some?
      && Strip(rows[k].name) != [] && Strip(rows[k].address) != []
      && PairOf(rows[k].name, rows[k].address) == PairOf(row.name, row.address);
    BulkFoldSeen(snapshot, rows, k);
    assert (rows + [row])[..|rows|] == rows;
  }

  /** Every filled-in row with an id leaves its pair remembered. */
  lemma {:induction false} BulkFoldSeen(snapshot: map<int, Site>, rows: seq<BulkRow>, k: int)
    requires 0 <= k < |rows| && rows[k].id.Some? && Strip(rows[k].name) != [] && Strip(rows[k].address) != []
    ensures PairOf(rows[k].name, rows[k].address) in BulkFold(snapshot, rows).1
  {
    var init := rows[..|rows| - 1];
    if k < |rows| - 1 {
      assert init[k] == rows[k];
      BulkFoldSeen(snapshot, init, k);
      BulkFoldInv(snapshot, init);
      BulkStepInv(snapshot, BulkFold(snapshot, init).0, BulkFold(snapshot, init).1, rows[|rows| - 1]);
    }
  }

  // ---------------------------------------------------------------------------
  // The table

  /** The sites table, changed in place by the `admin_sites` actions. */
  class SiteTable {
    var sites: map<int, Site>
    var nextId: int

    predicate Valid()
      reads this
    {
      Consistent(sites) && nextId > 0 && forall id | id in sites :: id < nextId
    }

    constructor ()
      ensures Valid() && sites == map[]
    {
      sites := map[];
      nextId := 1;
    }

    /** The create action; the new site takes the next id. */
    method Create(nameField: string, addressField: string) returns (outcome: SiteOutcome)
      requires Valid()
      modifies this
      ensures Valid()
      ensures (outcome, sites) == CreateSite(old(sites), old(nextId), nameField, addressField)
    {
      var name := Strip(nameField);
      var address := Strip(addressField);
      CreateSiteSpec(sites, nextId, nameField, addressField);
      if name == [] || address == [] {
        return Ignored;
      }
      if SiteExists(sites, name, address, None) {
        return Duplicate;
      }
      sites := sites[nextId := Site(name, address)];
      nextId := nextId + 1;
      outcome := Saved;
    }

    /** The update action. */
    method Update(id: int, nameField: string, addressField: string) returns (outcome: SiteOutcome)
      requires Valid()
      modifies this
      ensures Valid() && nextId == old(nextId)
      ensures (outcome, sites) == UpdateSite(old(sites), id, nameField, addressField)
    {
      UpdateSiteSpec(sites, id, nameField, addressField);
      if id !in sites {
        return Ignored;
      }
      var site := sites[id];
      var name := if Strip(nameField) != [] then Strip(nameField) else site.name;
      var address := if Strip(addressField) != [] then Strip(addressField) else site.address;
      if SiteExists(sites, name, address, Some(id)) {
        return Duplicate;
      }
      sites := sites[id := Site(name, address)];
      outcome := Saved;
    }

    /** The delete action. */
    method Delete(id: int)
      requires Valid()
      modifies this
      ensures Valid() && nextId == old(nextId)
      ensures sites == DeleteSite(old(sites), id)
    {
      DeleteSiteSpec(sites, id);
      sites := sites - {id};
    }

    /** The bulk update: the three form lists zipped, each row checked against the table before the batch. */
    method BulkUpdateRows(ids: seq<Option<int>>, names: seq<string>, addresses: seq<string>)
      requires Valid()
      modifies this
      ensures Valid() && nextId == old(nextId)
      ensures sites == BulkUpdate(old(sites), Zip3(ids, names, addresses))
    {
      var snapshot := sites;
      var rows := Zip3(ids, names, addresses);
      var seenPairs: set<(string, string)> := {};
      var i := 0;
      while i < |rows|
        invariant 0 <= i <= |rows|
        invariant (sites, seenPairs) == BulkFold(snapshot, rows[..i])
        invariant nextId == old(nextId)
      {
        assert rows[..i + 1][..i] == rows[..i];
        assert BulkFold(snapshot, rows[..i + 1]) == BulkStep(snapshot, sites, seenPairs, rows[i]);
        var name := Strip(rows[i].name);
        var address := Strip(rows[i].address);
        if rows[i].id.Some? && name != [] && address != [] {
          var pair := (Lower(name), Lower(address));
          if pair !in seenPairs {
            seenPairs := seenPairs + {pair};
            var id := rows[i].id.value;
            if id in sites && !SiteExists(snapshot, name, address, Some(id)) {
              sites := sites[id := Site(name, address)];
            }
          }
        }
        i := i + 1;
      }
      assert rows[..i] == rows;
      BulkUpdateSpec(snapshot, rows);
      BulkFoldInv(snapshot, rows);
    }
  }
}
