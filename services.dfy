/**
 * The service catalogue page: the list of services and the add/edit form.
 *
 * Server answers are parameters: the loaded list, the record returned by a create or an
 * update (or the failure), and the outcome of a delete. The price is kept as the text the
 * form shows; its conversion to and from a floating-point number is not modelled.
 */
module Services {
  import opened Wrappers
  import opened Seqs
  import opened JsText

  /**
   * A catalogue entry as the server returns it; any field but the id may be absent or `null`
   * (`None`), and an absent or unreadable duration is `None` as well.
   */
  datatype Service = Service(
    id: string,
    descricao: Option<string>,
    resumo: Option<string>,
    tempoConclusao: Option<int>,
    valor: Option<string>)

  /** The add/edit form fields. */
  datatype ServiceForm = ServiceForm(name: string, details: string, duration: int, price: string)

  /** What one control of the form does to it. */
  datatype FormEdit = SetName(name: string) | SetDetails(details: string) | SetDuration(duration: int) | SetPrice(price: string)

  /** The body of a create or update request. */
  datatype ServicePayload = ServicePayload(descricao: string, resumo: string, tempoConclusao: int, price: string)

  /** The answer to a create or update request. */
  datatype SaveReply = SaveFailed | Returned(record: Service)

  const DefaultDuration := 30

  const EmptyForm := ServiceForm("", "", DefaultDuration, "")

  // ---------------------------------------------------------------- the form

  /**
   * The form `openEditModal` fills in: a missing name, details or price becomes "", and a
   * missing or zero duration becomes 30.
   */
  function EditForm(s: Service): (f: ServiceForm)
    ensures f.name == (if s.descricao.Some? then s.descricao.value else "")
    ensures f.details == (if s.resumo.Some? then s.resumo.value else "")
    ensures f.duration == (if s.tempoConclusao.None? || s.tempoConclusao.value == 0
                           then DefaultDuration else s.tempoConclusao.value)
    ensures f.price == (if s.valor.Some? then s.valor.value else "")
    ensures f.duration != 0
  {
    var duration := s.tempoConclusao.GetOr(0);
    ServiceForm(s.descricao.GetOr(""), s.resumo.GetOr(""),
      if duration == 0 then DefaultDuration else duration,
      s.valor.GetOr(""))
  }

  /** The form after one of its controls is used. */
  function ApplyEdit(f: ServiceForm, e: FormEdit): ServiceForm {
    match e
    case SetName(v) => f.(name := v)
    case SetDetails(v) => f.(details := v)
    case SetDuration(v) => f.(duration := v)
    case SetPrice(v) => f.(price := v)
  }

  /**
   * The payload `handleSave` sends, or `None` when the trimmed name is empty and nothing is
   * sent.
   */
  function ValidatedPayload(f: ServiceForm): (p: Option<ServicePayload>)
    ensures p.None? <==> AllWhitespace(f.name)
    ensures p.Some? ==> p.value.descricao == Trim(f.name) && p.value.resumo == Trim(f.details)
    ensures p.Some? ==> (p.value.descricao != ""
                         && !IsJsWhitespace(p.value.descricao[0])
                         && !IsJsWhitespace(p.value.descricao[|p.value.descricao| - 1]))
    ensures p.Some? ==> p.value.tempoConclusao == f.duration && p.value.price == f.price
  {
    var descricao := Trim(f.name);
    if descricao == "" then None
    else Some(ServicePayload(descricao, Trim(f.details), f.duration, f.price))
  }

  /** Putting a sent payload back into the form and saving again sends the same payload. */
  lemma ValidatedPayloadIsStable(f: ServiceForm)
    requires ValidatedPayload(f).Some?
    ensures var p := ValidatedPayload(f).value;
            ValidatedPayload(f.(name := p.descricao, details := p.resumo)) == Some(p)
  {
    TrimIdempotent(f.name);
    TrimIdempotent(f.details);
  }

  // ---------------------------------------------------------------- list edits

  /** `services.map(s => s.id === id ? rec : s)`. */
  function ReplaceById(services: seq<Service>, id: string, rec: Service): (r: seq<Service>)
    ensures |r| == |services|
    ensures forall k :: 0 <= k < |services| ==> r[k] == if services[k].id == id then rec else services[k]
  {
    if services == [] then []
    else [if services[0].id == id then rec else services[0]] + ReplaceById(services[1..], id, rec)
  }

  /** Replacing an id no entry carries changes nothing. */
  lemma ReplaceAbsentId(services: seq<Service>, id: string, rec: Service)
    requires forall k :: 0 <= k < |services| ==> services[k].id != id
    ensures ReplaceById(services, id, rec) == services
  {
  }

  /** Replacing twice with the same record is replacing once. */
  lemma ReplaceTwice(services: seq<Service>, id: string, rec: Service)
    ensures ReplaceById(ReplaceById(services, id, rec), id, rec) == ReplaceById(services, id, rec)
  {
  }

  function WithoutId(id: string): Service -> bool {
    (s: Service) => s.id != id
  }

  /** `services.filter(s => s.id !== id)`. */
  function RemoveById(services: seq<Service>, id: string): (r: seq<Service>)
    ensures forall k :: 0 <= k < |r| ==> r[k].id != id
  {
    Filter(WithoutId(id), services)
  }

  /** Every entry with another id is kept, as often as it occurred. */
  lemma RemoveKeepsOthers(services: seq<Service>, id: string, s: Service)
    ensures multiset(RemoveById(services, id))[s] == if s.id == id then 0 else multiset(services)[s]
  {
    FilterMultiset(WithoutId(id), services, s);
  }

  /** Deletion works entry by entry: it distributes over concatenation... */
  lemma RemoveDistributes(a: seq<Service>, b: seq<Service>, id: string)
    ensures RemoveById(a + b, id) == RemoveById(a, id) + RemoveById(b, id)
  {
    FilterAppend(WithoutId(id), a, b);
  }

  /** ...and keeps a single entry exactly when it has another id; so the rest keep their order. */
  lemma RemoveOneService(s: Service, id: string)
    ensures RemoveById([s], id) == if s.id == id then [] else [s]
  {
    FilterOne(WithoutId(id), s);
  }

  /** Deleting a service that was just created (under a fresh id) gives back the old list. */
  lemma DeleteAfterCreate(services: seq<Service>, rec: Service)
    requires forall k :: 0 <= k < |services| ==> services[k].id != rec.id
    ensures RemoveById(services + [rec], rec.id) == services
  {
    FilterAppend(WithoutId(rec.id), services, [rec]);
    FilterKeepsAll(WithoutId(rec.id), services);
  }

  /** Deleting the id just given to a record removes what the edit put there. */
  lemma DeleteAfterReplace(services: seq<Service>, id: string, rec: Service)
    requires rec.id == id
    ensures RemoveById(ReplaceById(services, id, rec), id) == RemoveById(services, id)
  {
    var r := ReplaceById(services, id, rec);
    FilterCongruentOn(services, r, id);
  }

  /** Two lists that agree everywhere except at entries with `id` lose the same entries. */
  lemma {:induction false} FilterCongruentOn(a: seq<Service>, b: seq<Service>, id: string)
    requires |a| == |b|
    requires forall k :: 0 <= k < |a| ==> (a[k].id == id && b[k].id == id) || a[k] == b[k]
    ensures RemoveById(b, id) == RemoveById(a, id)
  {
    if a != [] {
      FilterCongruentOn(a[1..], b[1..], id);
    }
  }

  // ---------------------------------------------------------------- the page state

  class ServicesPage {
    var services: seq<Service>
    /** The service being edited, or `None` in the add form. */
    var editing: Option<Service>
    var form: ServiceForm
    var modalOpen: bool

    constructor ()
      ensures services == [] && editing == None && form == EmptyForm && !modalOpen
    {
      services := [];
      editing := None;
      form := EmptyForm;
      modalOpen := false;
    }

    /** `fetchServices`: the loaded list replaces the old one; a failure keeps it. */
    method Load(reply: Option<seq<Service>>)
      modifies this`services
      ensures services == reply.GetOr(old(services))
    {
      if reply.Some? {
        services := reply.value;
      }
    }

    method OpenAddModal()
      modifies this`editing, this`form, this`modalOpen
      ensures editing == None && form == EmptyForm && modalOpen
    {
      editing := None;
      form := EmptyForm;
      modalOpen := true;
    }

    method OpenEditModal(s: Service)
      modifies this`editing, this`form, this`modalOpen
      ensures editing == Some(s) && form == EditForm(s) && modalOpen
    {
      editing := Some(s);
      form := EditForm(s);
      modalOpen := true;
    }

    method CloseModal()
      modifies this`modalOpen
      ensures !modalOpen
    {
      modalOpen := false;
    }

    method EditField(e: FormEdit)
      modifies this`form
      ensures form == ApplyEdit(old(form), e)
    {
      form := ApplyEdit(form, e);
    }

    /**
     * `handleDelete`: after confirmation and a successful request every entry with `id` is
     * dropped; otherwise nothing changes.
     */
    method Delete(id: string, confirmed: bool, succeeded: bool)
      modifies this`services
      ensures confirmed && succeeded ==> services == RemoveById(old(services), id)
      ensures !(confirmed && succeeded) ==> services == old(services)
    {
      if !confirmed {
        return;
      }
      if succeeded {
        services := RemoveById(services, id);
      }
    }

    /**
     * `handleSave`: returns the payload sent, if any. On an edit the returned record replaces
     * every entry with the edited id; on a create it is appended. An invalid name or a failed
     * request leaves the list as it was.
     */
    method Save(reply: SaveReply) returns (sent: Option<ServicePayload>)
      modifies this`services
      ensures sent == ValidatedPayload(form)
      ensures sent.None? || reply.SaveFailed? ==> services == old(services)
      ensures sent.Some? && reply.Returned? && editing.Some? ==>
                services == ReplaceById(old(services), editing.value.id, reply.record)
      ensures sent.Some? && reply.Returned? && editing.None? ==>
                services == old(services) + [reply.record]
    {
      sent := ValidatedPayload(form);
      if sent.None? {
        return;
      }
      match reply
      case SaveFailed =>
      case Returned(record) =>
        if editing.Some? {
          services := ReplaceById(services, editing.value.id, record);
        } else {
          services := services + [record];
        }
    }
  }
}
