/**
  Sales leads and their stages: `LEAD_STAGES` (app.py:3146), the actions of
  `leads_dashboard` (app.py:5333-5377), its stage filter and grouping
  (app.py:5381-5403), and `leads_stage` (app.py:5421-5436).

  A form field is `None` when absent; Python's `or` treats an empty value
  like a missing one. The date filters and the ordering by creation time are
  not part of this model: the leads come in the query's order.
*/
module Leads {
  import opened Wrappers
  import opened Text
  import opened Seqs

  const LEAD_STAGES: seq<string> := ["New Leads", "Qualified", "Contacted", "Converted"]

  const DEFAULT_STAGE := "New Leads"

  datatype Lead = Lead(
    name: string,
    email: Option<string>,
    phone: Option<string>,
    source: Option<string>,
    notes: Option<string>,
    stage: string)

  datatype LeadForm = LeadForm(
    name: Option<string>,
    email: Option<string>,
    phone: Option<string>,
    source: Option<string>,
    notes: Option<string>,
    stage: Option<string>)

  /** `value or fallback`: an empty or missing value gives the fallback. */
  function OrElse(value: Option<string>, fallback: string): string {
    if value.Some? && value.value != [] then value.value else fallback
  }

  /** `(value or "").strip() or None`. */
  function OptionalText(value: Option<string>): (r: Option<string>)
    ensures r.None? <==> Strip(OrElse(value, "")) == []
    ensures r.Some? ==> r.value == Strip(OrElse(value, "")) && Trimmed(r.value) && r.value != []
  {
    StripIsTrimmed(OrElse(value, ""));
    var t := Strip(OrElse(value, ""));
    if t == [] then None else Some(t)
  }

  /** Every lead's stage is one of the listed stages. */
  predicate StagesListed(leads: map<int, Lead>) {
    forall id | id in leads :: leads[id].stage in LEAD_STAGES
  }

  /** The create action: a lead needs a name; an unlisted stage becomes "New Leads". */
  function CreatedLead(form: LeadForm): Option<Lead> {
    var name := Strip(OrElse(form.name, ""));
    if name == [] then None
    else
      var stage := OrElse(form.stage, DEFAULT_STAGE);
      Some(Lead(name, OptionalText(form.email), OptionalText(form.phone), OptionalText(form.source),
                OptionalText(form.notes), if stage in LEAD_STAGES then stage else DEFAULT_STAGE))
  }

  /**
    A lead is created exactly when the stripped name is filled in; its stage
    is the requested one when that is listed and "New Leads" otherwise.
  */
  lemma CreatedLeadSpec(form: LeadForm)
    ensures CreatedLead(form).Some? <==> Strip(OrElse(form.name, "")) != []
    ensures CreatedLead(form).Some? ==>
      var lead := CreatedLead(form).value;
      && lead.stage in LEAD_STAGES
      && lead.name == Strip(OrElse(form.name, ""))
      && (form.stage.Some? && form.stage.value in LEAD_STAGES ==> lead.stage == form.stage.value)
      && (form.stage.None? || form.stage.value !in LEAD_STAGES ==> lead.stage == DEFAULT_STAGE)
  {
  }

  /**
    The update action on an existing lead: the name changes only to a
    non-blank one, the optional texts are replaced (a blank clears them) and
    the stage changes only to a listed one.
  */
  function UpdatedLead(lead: Lead, form: LeadForm): Lead {
    var name := Strip(OrElse(form.name, lead.name));
    var stage := Strip(OrElse(form.stage, lead.stage));
    Lead(if name != [] then name else lead.name,
         OptionalText(form.email), OptionalText(form.phone), OptionalText(form.source), OptionalText(form.notes),
         if stage in LEAD_STAGES then stage else lead.stage)
  }

  lemma UpdatedLeadSpec(lead: Lead, form: LeadForm)
    ensures lead.stage in LEAD_STAGES ==> UpdatedLead(lead, form).stage in LEAD_STAGES
    ensures UpdatedLead(lead, form).stage == lead.stage
         || (UpdatedLead(lead, form).stage == Strip(OrElse(form.stage, lead.stage))
             && UpdatedLead(lead, form).stage in LEAD_STAGES)
    ensures form.stage.Some? && form.stage.value in LEAD_STAGES ==> UpdatedLead(lead, form).stage == form.stage.value
    ensures UpdatedLead(lead, form).name != [] || lead.name == []
    ensures form.email.None? ==> UpdatedLead(lead, form).email.None?
    ensures UpdatedLead(lead, form).email == OptionalText(form.email)
    ensures UpdatedLead(lead, form).phone == OptionalText(form.phone)
    ensures UpdatedLead(lead, form).source == OptionalText(form.source)
    ensures UpdatedLead(lead, form).notes == OptionalText(form.notes)
    ensures UpdatedLead(lead, form).name == lead.name
         || (UpdatedLead(lead, form).name == Strip(OrElse(form.name, lead.name)) && UpdatedLead(lead, form).name != [])
  {
    if form.stage.Some? && form.stage.value in LEAD_STAGES {
      var s := form.stage.value;
      assert s == "New Leads" || s == "Qualified" || s == "Contacted" || s == "Converted";
      assert Trimmed(s);
      StripOfTrimmed(s);
    }
  }

  /** The answer of `/leads/stage`. */
  datatype StageReply = BadRequest | NotFound | Accepted

  /**
    `leads_stage`: a request without a lead id or with an unlisted stage is
    refused, a missing lead is not found, otherwise the stage is set.
  */
  function SetStage(leads: map<int, Lead>, id: Option<int>, stage: Option<string>): (StageReply, map<int, Lead>) {
    if id.None? || id.value == 0 || stage.None? || stage.value !in LEAD_STAGES then (BadRequest, leads)
    else if id.value !in leads then (NotFound, leads)
    else (Accepted, leads[id.value := leads[id.value].(stage := stage.value)])
  }

  /**
    Only a listed stage is ever stored; a refused request changes nothing;
    an accepted one changes the stage of that lead alone.
  */
  lemma SetStageSpec(leads: map<int, Lead>, id: Option<int>, stage: Option<string>)
    ensures var (reply, after) := SetStage(leads, id, stage);
      && (reply == BadRequest <==> id.None? || id.value == 0 || stage.None? || stage.value !in LEAD_STAGES)
      && (reply == NotFound <==> reply != BadRequest && id.value !in leads)
      && (reply != Accepted ==> after == leads)
      && (reply == Accepted ==>
            && after.Keys == leads.Keys
            && after[id.value] == leads[id.value].(stage := stage.value)
            && (forall other | other in leads && other != id.value :: after[other] == leads[other]))
      && (StagesListed(leads) ==> StagesListed(after))
  {
  }

  // ---------------------------------------------------------------------------
  // Listing

  /** `stage_filter`: applied only when it names a listed stage. */
  function FilterByStage(leads: seq<Lead>, stageFilter: Option<string>): seq<Lead> {
    if leads == [] then []
    else
      var p := FilterByStage(leads[..|leads| - 1], stageFilter);
      var lead := leads[|leads| - 1];
      if stageFilter.Some? && stageFilter.value in LEAD_STAGES && lead.stage != stageFilter.value then p
      else p + [lead]
  }

  /** The leads of one stage, in order. */
  function OfStage(leads: seq<Lead>, stage: string): seq<Lead> {
    if leads == [] then []
    else
      var p := OfStage(leads[..|leads| - 1], stage);
      if leads[|leads| - 1].stage == stage then p + [leads[|leads| - 1]] else p
  }

  /** A listed stage keeps exactly that stage's leads in order; any other filter keeps them all. */
  lemma {:induction false} FilterByStageSpec(leads: seq<Lead>, stageFilter: Option<string>)
    ensures stageFilter.Some? && stageFilter.value in LEAD_STAGES ==>
      FilterByStage(leads, stageFilter) == OfStage(leads, stageFilter.value)
    ensures stageFilter.None? || stageFilter.value !in LEAD_STAGES ==> FilterByStage(leads, stageFilter) == leads
  {
    if leads != [] {
      FilterByStageSpec(leads[..|leads| - 1], stageFilter);
      assert leads == leads[..|leads| - 1] + [leads[|leads| - 1]];
    }
  }

  /** The groups: one list per listed stage, plus one per other stage a lead has. */
  function Grouped(leads: seq<Lead>): map<string, seq<Lead>> {
    if leads == [] then map s | s in LEAD_STAGES :: []
    else
      var g := Grouped(leads[..|leads| - 1]);
      var lead := leads[|leads| - 1];
      g[lead.stage := (if lead.stage in g then g[lead.stage] else []) + [lead]]
  }

  /** Some lead carries `stage`. */
  predicate HasStage(leads: seq<Lead>, stage: string) {
    exists i | 0 <= i < |leads| :: leads[i].stage == stage
  }

  /**
    Every listed stage has a group, and so has every stage a lead carries;
    each group is the leads of its stage in order.
  */
  lemma {:induction false} GroupedSpec(leads: seq<Lead>)
    ensures forall s :: s in Grouped(leads) <==> s in LEAD_STAGES || HasStage(leads, s)
    ensures forall s | s in Grouped(leads) :: Grouped(leads)[s] == OfStage(leads, s)
  {
    if leads != [] {
      var init := leads[..|leads| - 1];
      GroupedSpec(init);
      forall s ensures HasStage(leads, s) <==> HasStage(init, s) || leads[|leads| - 1].stage == s
      {
        if exists i | 0 <= i < |leads| :: leads[i].stage == s {
          var i :| 0 <= i < |leads| && leads[i].stage == s;
          if i < |init| {
            assert init[i] == leads[i];
          }
        }
        if exists i | 0 <= i < |init| :: init[i].stage == s {
          var i :| 0 <= i < |init| && init[i].stage == s;
          assert leads[i] == init[i];
        }
      }
      var lead := leads[|leads| - 1];
      if lead.stage !in Grouped(init) {
        OfStageNone(init, lead.stage);
      }
    } else {
      forall s | s in Grouped(leads) ensures Grouped(leads)[s] == OfStage(leads, s) {
      }
    }
  }

  lemma {:induction false} OfStageNone(leads: seq<Lead>, stage: string)
    requires forall i | 0 <= i < |leads| :: leads[i].stage != stage
    ensures OfStage(leads, stage) == []
  {
    if leads != [] {
      OfStageNone(leads[..|leads| - 1], stage);
    }
  }

  /** When every lead has a listed stage, the groups are exactly the listed stages. */
  lemma GroupedOfListed(leads: seq<Lead>)
    requires forall i | 0 <= i < |leads| :: leads[i].stage in LEAD_STAGES
    ensures Grouped(leads).Keys == Elems(LEAD_STAGES)
  {
    GroupedSpec(leads);
  }

  /** The grouping loop of `leads_dashboard`. */
  method GroupLeads(leads: seq<Lead>) returns (grouped: map<string, seq<Lead>>)
    ensures grouped == Grouped(leads)
  {
    grouped := map s | s in LEAD_STAGES :: [];
    var i := 0;
    while i < |leads|
      invariant 0 <= i <= |leads|
      invariant grouped == Grouped(leads[..i])
    {
      assert leads[..i + 1][..i] == leads[..i];
      var lead := leads[i];
      var group := if lead.stage in grouped then grouped[lead.stage] else [];
      grouped := grouped[lead.stage := group + [lead]];
      i := i + 1;
    }
    assert leads[..i] == leads;
  }

  // ---------------------------------------------------------------------------
  // The table

  /** The leads table, changed in place by the lead routes. */
  class LeadBoard {
    var leads: map<int, Lead>
    var nextId: int

    predicate Valid()
      reads this
    {
      StagesListed(leads) && nextId > 0 && forall id | id in leads :: 0 < id < nextId
    }

    constructor ()
      ensures Valid() && leads == map[]
    {
      leads := map[];
      nextId := 1;
    }

    /** The create action; the new lead takes the next id. */
    method Create(form: LeadForm) returns (created: bool)
      requires Valid()
      modifies this
      ensures Valid()
      ensures created <==> CreatedLead(form).Some?
      ensures created ==> leads == old(leads)[old(nextId) := CreatedLead(form).value]
      ensures !created ==> leads == old(leads)
    {
      CreatedLeadSpec(form);
      var lead := CreatedLead(form);
      if lead.None? {
        return false;
      }
      leads := leads[nextId := lead.value];
      nextId := nextId + 1;
      created := true;
    }

    /** The update action. */
    method Update(id: int, form: LeadForm)
      requires Valid()
      modifies this
      ensures Valid() && nextId == old(nextId)
      ensures id in old(leads) ==> leads == old(leads)[id := UpdatedLead(old(leads)[id], form)]
      ensures id !in old(leads) ==> leads == old(leads)
    {
      if id in leads {
        UpdatedLeadSpec(leads[id], form);
        leads := leads[id := UpdatedLead(leads[id], form)];
      }
    }

    /** The delete action. */
    method Delete(id: int)
      requires Valid()
      modifies this
      ensures Valid() && nextId == old(nextId)
      ensures leads == old(leads) - {id}
    {
      leads := leads - {id};
    }

    /** `leads_stage`. */
    method MoveToStage(id: Option<int>, stage: Option<string>) returns (reply: StageReply)
      requires Valid()
      modifies this
      ensures Valid() && nextId == old(nextId)
      ensures (reply, leads) == SetStage(old(leads), id, stage)
    {
      SetStageSpec(leads, id, stage);
      if id.None? || id.value == 0 || stage.None? || stage.value !in LEAD_STAGES {
        return BadRequest;
      }
      if id.value !in leads {
        return NotFound;
      }
      leads := leads[id.value := leads[id.value].(stage := stage.value)];
      reply := Accepted;
    }
  }
}
