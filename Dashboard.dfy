/** The event-creation form of the admin dashboard
    (src/components/AdminDashboard.tsx). */
module Dashboard {

  import opened Http

  /** The six values the form collects; also the body of `POST /api/events`. */
  datatype EventFormData = EventFormData(
    title: string,
    date: string,
    category: string,
    image: string,
    description: string,
    location: string)

  /** The `name` attributes of the form's six inputs. */
  datatype Field = Title | Date | Category | Image | Description | Location

  /** What `handleSubmit` causes besides sending the request, in order. */
  datatype FormEffect = ResetForm | EventAdded

  function Get(d: EventFormData, f: Field): string {
    match f
    case Title => d.title
    case Date => d.date
    case Category => d.category
    case Image => d.image
    case Description => d.description
    case Location => d.location
  }

  /** `{...prev, [name]: value}` for one of the six field names. */
  function Put(d: EventFormData, f: Field, v: string): (r: EventFormData)
    ensures Get(r, f) == v
    ensures forall g :: g != f ==> Get(r, g) == Get(d, g)
  {
    match f
    case Title => d.(title := v)
    case Date => d.(date := v)
    case Category => d.(category := v)
    case Image => d.(image := v)
    case Description => d.(description := v)
    case Location => d.(location := v)
  }

  /** The record the form starts from and is reset to. */
  function EmptyForm(): (r: EventFormData)
    ensures forall f :: Get(r, f) == ""
  {
    EventFormData("", "", "", "", "", "")
  }

  /** Two records that agree on all six fields are the same record. */
  lemma FieldsDetermineForm(a: EventFormData, b: EventFormData)
    requires forall f :: Get(a, f) == Get(b, f)
    ensures a == b
  {
    assert Get(a, Title) == Get(b, Title) && Get(a, Date) == Get(b, Date);
    assert Get(a, Category) == Get(b, Category) && Get(a, Image) == Get(b, Image);
    assert Get(a, Description) == Get(b, Description) && Get(a, Location) == Get(b, Location);
  }

  /** Writing a field back with the value it holds changes nothing, and a
      second write to the same field overrides the first. */
  lemma PutLaws(d: EventFormData, f: Field, v: string, w: string)
    ensures Put(d, f, Get(d, f)) == d
    ensures Put(Put(d, f, v), f, w) == Put(d, f, w)
  {
  }

  /** Writes to two different fields commute. */
  lemma PutCommutes(d: EventFormData, f: Field, g: Field, v: string, w: string)
    requires f != g
    ensures Put(Put(d, f, v), g, w) == Put(Put(d, g, w), f, v)
  {
  }

  /** Filling in every field of an empty form, one change per field, gives
      the record of the values entered. */
  lemma FillingAllFields(d: EventFormData)
    ensures Put(Put(Put(Put(Put(Put(EmptyForm(),
              Title, d.title), Date, d.date), Category, d.category),
              Image, d.image), Description, d.description), Location, d.location) == d
  {
  }

  /** The admin dashboard's state: the `formData` record. */
  class AdminDashboard {
    var formData: EventFormData

    /** `useState<EventFormData>({...})` with every field empty. */
    constructor ()
      ensures formData == EmptyForm()
    {
      formData := EmptyForm();
    }

    /** `handleChange`: overwrites exactly the named field. */
    method HandleChange(f: Field, v: string)
      modifies this
      ensures Get(formData, f) == v
      ensures forall g :: g != f ==> Get(formData, g) == Get(old(formData), g)
      ensures formData == Put(old(formData), f, v)
    {
      formData := Put(formData, f, v);
    }

    /** `handleSubmit` once its request has ended with `outcome`. The request
        body is the record as it stood; on a 2xx response the form is reset
        and then `onEventAdded` is called once; otherwise the entered values
        stay and nothing else happens. */
    method HandleSubmit(outcome: RequestOutcome) returns (body: EventFormData, effects: seq<FormEffect>)
      modifies this
      ensures body == old(formData)
      ensures outcome == Ok ==> formData == EmptyForm() && effects == [ResetForm, EventAdded]
      ensures outcome != Ok ==> formData == old(formData) && effects == []
    {
      body := formData;
      effects := [];
      if outcome == Ok {
        formData := EmptyForm();
        effects := effects + [ResetForm];
        effects := effects + [EventAdded];
      }
    }
  }
}
