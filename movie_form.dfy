/**
 * The record validator of the movie form: the form state (`formData`,
 * `errors`), its set-up for a new or an edited movie, `validateForm`,
 * `handleSubmit` and `handleChange`.
 */
module MovieForm {
  import opened Wrappers
  import opened Text
  import opened Movies
  import MovieService

  const TitleRequired: string := "El título es requerido"
  const YearRequired: string := "El año es requerido"
  const YearFormat: string := "El año debe tener 4 dígitos"
  const TypeRequired: string := "El género es requerido"
  const DescriptionRequired: string := "La descripción es requerida"
  const UbicationRequired: string := "La ubicación es requerida"

  /** The keys of `formData`. */
  datatype Field = ImdbID | Title | Year | Type | Poster | Estado | Description | Ubication

  /** A value an input hands to `handleChange`: text, or the checkbox state. */
  datatype FieldValue = TextValue(text: string) | Flag(flag: bool)

  /** Every input passes text, except the `Estado` checkbox, which passes `checked`. */
  predicate Fits(field: Field, value: FieldValue) {
    if field == Estado then value.Flag? else value.TextValue?
  }

  function Get(d: Movie, field: Field): (v: FieldValue)
    ensures Fits(field, v)
  {
    match field
    case ImdbID => TextValue(d.imdbID)
    case Title => TextValue(d.Title)
    case Year => TextValue(d.Year)
    case Type => TextValue(d.Type)
    case Poster => TextValue(d.Poster)
    case Estado => Flag(d.Estado)
    case Description => TextValue(d.description)
    case Ubication => TextValue(d.Ubication)
  }

  /** `{ ...prev, [field]: value }` */
  function Set(d: Movie, field: Field, value: FieldValue): Movie
    requires Fits(field, value)
  {
    match field
    case ImdbID => d.(imdbID := value.text)
    case Title => d.(Title := value.text)
    case Year => d.(Year := value.text)
    case Type => d.(Type := value.text)
    case Poster => d.(Poster := value.text)
    case Estado => d.(Estado := value.flag)
    case Description => d.(description := value.text)
    case Ubication => d.(Ubication := value.text)
  }

  /** Setting a field changes that field to the new value and no other. */
  lemma SetChangesOnlyThatField(d: Movie, field: Field, value: FieldValue, other: Field)
    requires Fits(field, value)
    ensures Get(Set(d, field, value), field) == value
    ensures other != field ==> Get(Set(d, field, value), other) == Get(d, other)
  {
  }

  /** The `formData` a form starts from: every text '' and `Estado` true. */
  const Blank: Movie := Movie("", "", "", "", "", true, "", "")

  /** The identifier a new form takes: "IMDB" followed by the timestamp in decimal. */
  function NewId(now: nat): string {
    "IMDB" + Decimal(now)
  }

  /** New identifiers start with "IMDB", go on with digits only, and are
      different for different timestamps. */
  lemma NewIdShape(now: nat, later: nat)
    ensures |NewId(now)| > 4 && NewId(now)[..4] == "IMDB" && AllDigits(NewId(now)[4..])
    ensures NewId(now) == NewId(later) ==> now == later
  {
    assert NewId(now)[4..] == Decimal(now);
    assert NewId(later)[4..] == Decimal(later);
    DecimalInjective(now, later);
  }

  /** A new identifier holds no `&`, so it is read back whole from its item
      URL: an update or delete of the new record addresses that record. */
  lemma NewIdAddressable(now: nat)
    ensures MovieService.ItemQuery(MovieService.ItemUrl(NewId(now))) == Some(NewId(now))
  {
    NewIdShape(now, now);
    var id := NewId(now);
    forall i | 0 <= i < |id| ensures id[i] != '&' {
      if i >= 4 {
        assert id[4..][i - 4] == id[i];
      }
    }
    MovieService.ItemUrlRoundTrip(id);
  }

  /** The error the validator gives a required text field, if any. */
  function RequiredError(value: string, message: string): Option<string> {
    if IsBlank(value) then Some(message) else None
  }

  /** The year's error: blank first, then the four-digit test on the untrimmed text. */
  function YearError(year: string): Option<string> {
    if IsBlank(year) then Some(YearRequired)
    else if !IsFourDigits(year) then Some(YearFormat)
    else None
  }

  /** The error `validateForm` records for one field, if any. */
  function FieldError(d: Movie, field: Field): Option<string> {
    match field
    case Title => RequiredError(d.Title, TitleRequired)
    case Year => YearError(d.Year)
    case Type => RequiredError(d.Type, TypeRequired)
    case Description => RequiredError(d.description, DescriptionRequired)
    case Ubication => RequiredError(d.Ubication, UbicationRequired)
    case ImdbID => None
    case Poster => None
    case Estado => None
  }

  /** The messages of the checked fields, recorded in the order `validateForm`
      checks them, each under its field. */
  function Collect(title: Option<string>, year: Option<string>, genre: Option<string>,
                   description: Option<string>, ubication: Option<string>): map<Field, string>
  {
    Note(Note(Note(Note(Note(map[], Title, title), Year, year), Type, genre),
      Description, description), Ubication, ubication)
  }

  /** `e` with the message of `err` recorded under `field`, if there is one. */
  function Note(e: map<Field, string>, field: Field, err: Option<string>): map<Field, string> {
    if err.Some? then e[field := err.value] else e
  }

  /** The error map `validateForm` stores for `d`. */
  function FormErrors(d: Movie): map<Field, string> {
    Collect(FieldError(d, Title), FieldError(d, Year), FieldError(d, Type),
      FieldError(d, Description), FieldError(d, Ubication))
  }

  /** The message `Collect` was given for `f`; nothing for an unchecked field. */
  function Given(f: Field, title: Option<string>, year: Option<string>, genre: Option<string>,
                 description: Option<string>, ubication: Option<string>): Option<string>
  {
    match f
    case Title => title
    case Year => year
    case Type => genre
    case Description => description
    case Ubication => ubication
    case ImdbID => None
    case Poster => None
    case Estado => None
  }

  /** `Collect` holds exactly the messages it was given, each under its own field. */
  lemma CollectAt(f: Field, title: Option<string>, year: Option<string>, genre: Option<string>,
                  description: Option<string>, ubication: Option<string>)
    ensures var e := Collect(title, year, genre, description, ubication);
            var g := Given(f, title, year, genre, description, ubication);
            (f in e <==> g.Some?) && (f in e ==> e[f] == g.value)
  {
  }

  /** One required-field check of `validateForm`, as a `Note`. */
  lemma RequiredStep(before: map<Field, string>, after: map<Field, string>, field: Field,
                     value: string, message: string)
    requires IsBlank(value) ==> after == before[field := message]
    requires !IsBlank(value) ==> after == before
    ensures after == Note(before, field, RequiredError(value, message))
  {
  }

  /** The year check of `validateForm`, as a `Note`. */
  lemma YearStep(before: map<Field, string>, after: map<Field, string>, year: string)
    requires IsBlank(year) ==> after == before[Year := YearRequired]
    requires !IsBlank(year) && !IsFourDigits(year) ==> after == before[Year := YearFormat]
    requires !IsBlank(year) && IsFourDigits(year) ==> after == before
    ensures after == Note(before, Year, YearError(year))
  {
  }

  /** Recording the five checked fields' messages one after the other gives the error map. */
  lemma RecordedInOrder(d: Movie, e1: map<Field, string>, e2: map<Field, string>,
                        e3: map<Field, string>, e4: map<Field, string>, e5: map<Field, string>)
    requires e1 == Note(map[], Title, FieldError(d, Title))
    requires e2 == Note(e1, Year, FieldError(d, Year))
    requires e3 == Note(e2, Type, FieldError(d, Type))
    requires e4 == Note(e3, Description, FieldError(d, Description))
    requires e5 == Note(e4, Ubication, FieldError(d, Ubication))
    ensures e5 == FormErrors(d)
  {
  }

  /** A field is in the error map exactly when it is in error, with its message. */
  lemma FormErrorsAt(d: Movie, f: Field)
    ensures f in FormErrors(d) <==> FieldError(d, f).Some?
    ensures f in FormErrors(d) ==> FormErrors(d)[f] == FieldError(d, f).value
  {
    CollectAt(f, FieldError(d, Title), FieldError(d, Year), FieldError(d, Type),
      FieldError(d, Description), FieldError(d, Ubication));
    assert Given(f, FieldError(d, Title), FieldError(d, Year), FieldError(d, Type),
      FieldError(d, Description), FieldError(d, Ubication)) == FieldError(d, f) by {
      match f
      case ImdbID => case Title => case Year => case Type =>
      case Poster => case Estado => case Description => case Ubication =>
    }
  }

  /** The form is valid exactly when title, type, description and location
      are non-blank, and the year is non-blank and exactly four digits. */
  lemma ValidIff(d: Movie)
    ensures FormErrors(d) == map[] <==>
              && !IsBlank(d.Title) && !IsBlank(d.Type) && !IsBlank(d.description)
              && !IsBlank(d.Ubication) && !IsBlank(d.Year) && IsFourDigits(d.Year)
  {
    FormErrorsAt(d, Title);
    FormErrorsAt(d, Year);
    FormErrorsAt(d, Type);
    FormErrorsAt(d, Description);
    FormErrorsAt(d, Ubication);
    if !IsBlank(d.Title) && !IsBlank(d.Type) && !IsBlank(d.description)
       && !IsBlank(d.Ubication) && !IsBlank(d.Year) && IsFourDigits(d.Year) {
      forall f ensures f !in FormErrors(d) {
        FormErrorsAt(d, f);
        assert FieldError(d, f).None? by {
          match f
          case ImdbID => case Title => case Year => case Type =>
          case Poster => case Estado => case Description => case Ubication =>
        }
      }
    }
  }

  /** A blank year gets only "required"; a non-blank year that is not four
      digits gets only the format message; a four-digit year gets none. */
  lemma YearMessages(d: Movie)
    ensures IsBlank(d.Year) ==> Year in FormErrors(d) && FormErrors(d)[Year] == YearRequired
    ensures !IsBlank(d.Year) && !IsFourDigits(d.Year) ==>
              Year in FormErrors(d) && FormErrors(d)[Year] == YearFormat
    ensures IsFourDigits(d.Year) ==> Year !in FormErrors(d)
  {
    FormErrorsAt(d, Year);
    if IsFourDigits(d.Year) {
      FourDigitsNotBlank(d.Year);
    }
  }

  /** The digit test sees the untrimmed year: " 2024" is refused with the format message. */
  lemma UntrimmedYearRejected(d: Movie)
    requires d.Year == " 2024"
    ensures Year in FormErrors(d) && FormErrors(d)[Year] == YearFormat
  {
    FormErrorsAt(d, Year);
    BlankIffAllWhiteSpace(d.Year);
    assert !IsWhiteSpace(d.Year[1]);
  }

  /** The poster, the active flag and the identifier never carry an error,
      and changing them never changes the error map. */
  lemma UncheckedFieldsNeverFail(d: Movie, poster: string, estado: bool, imdbID: string)
    ensures Poster !in FormErrors(d) && Estado !in FormErrors(d) && ImdbID !in FormErrors(d)
    ensures FormErrors(d.(Poster := poster, Estado := estado, imdbID := imdbID)) == FormErrors(d)
  {
    FormErrorsAt(d, Poster);
    FormErrorsAt(d, Estado);
    FormErrorsAt(d, ImdbID);
    var e := d.(Poster := poster, Estado := estado, imdbID := imdbID);
    assert FieldError(e, Title) == FieldError(d, Title);
    assert FieldError(e, Year) == FieldError(d, Year);
    assert FieldError(e, Type) == FieldError(d, Type);
    assert FieldError(e, Description) == FieldError(d, Description);
    assert FieldError(e, Ubication) == FieldError(d, Ubication);
  }

  class MovieFormState {
    var formData: Movie
    /** `errors`: field to message; `handleChange` may leave a key mapped to ''. */
    var errors: map<Field, string>

    /** `useState` and the first run of the `[movie]` effect: an edit form
        copies the movie; a new form starts blank with a fresh identifier. */
    constructor (movie: Option<Movie>, now: nat)
      ensures formData == (if movie.Some? then movie.value else Blank.(imdbID := NewId(now)))
      ensures errors == map[]
    {
      formData := Blank;
      errors := map[];
      new;
      MovieChanged(movie, now);
    }

    /** The `[movie]` effect: copy the movie, or keep the form and give it a new identifier. */
    method MovieChanged(movie: Option<Movie>, now: nat)
      modifies this`formData
      ensures formData == (if movie.Some? then movie.value else old(formData).(imdbID := NewId(now)))
    {
      match movie {
        case Some(m) => formData := m;
        case None => formData := formData.(imdbID := NewId(now));
      }
    }

    /** `validateForm`: fill a fresh error map field by field, store it, and
        report whether it is empty. */
    method ValidateForm() returns (valid: bool)
      modifies this`errors
      ensures errors == FormErrors(formData)
      ensures valid <==> errors == map[]
    {
      var d := formData;
      var newErrors: map<Field, string> := map[];
      if IsBlank(d.Title) {
        newErrors := newErrors[Title := TitleRequired];
      }
      ghost var e1 := newErrors;
      RequiredStep(map[], e1, Title, d.Title, TitleRequired);
      if IsBlank(d.Year) {
        newErrors := newErrors[Year := YearRequired];
      } else if !IsFourDigits(d.Year) {
        newErrors := newErrors[Year := YearFormat];
      }
      ghost var e2 := newErrors;
      YearStep(e1, e2, d.Year);
      if IsBlank(d.Type) {
        newErrors := newErrors[Type := TypeRequired];
      }
      ghost var e3 := newErrors;
      RequiredStep(e2, e3, Type, d.Type, TypeRequired);
      if IsBlank(d.description) {
        newErrors := newErrors[Description := DescriptionRequired];
      }
      ghost var e4 := newErrors;
      RequiredStep(e3, e4, Description, d.description, DescriptionRequired);
      if IsBlank(d.Ubication) {
        newErrors := newErrors[Ubication := UbicationRequired];
      }
      RequiredStep(e4, newErrors, Ubication, d.Ubication, UbicationRequired);
      RecordedInOrder(d, e1, e2, e3, e4, newErrors);
      errors := newErrors;
      valid := |errors| == 0;
    }

    /** `handleSubmit`: validate, and hand `formData`, unchanged, to `onSubmit`
        only when it is valid (`submitted` is what `onSubmit` receives). */
    method HandleSubmit() returns (submitted: Option<Movie>)
      modifies this`errors
      ensures errors == FormErrors(formData)
      ensures submitted == (if FormErrors(formData) == map[] then Some(formData) else None)
    {
      var valid := ValidateForm();
      submitted := if valid then Some(formData) else None;
    }

    /** `handleChange(field, value)`: set that one field; if it had a
        message, blank that message and leave the others. */
    method HandleChange(field: Field, value: FieldValue)
      requires Fits(field, value)
      modifies this
      ensures formData == Set(old(formData), field, value)
      ensures errors == if field in old(errors) && old(errors)[field] != ""
                        then old(errors)[field := ""] else old(errors)
      ensures field in errors ==> errors[field] == ""
    {
      formData := Set(formData, field, value);
      if field in errors && errors[field] != "" {
        errors := errors[field := ""];
      }
    }
  }
}
