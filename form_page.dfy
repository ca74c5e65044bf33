/** The form page with the photo tab: its state (ten text fields, the photo
    list and three checkbox groups), its initial value, and the handlers that
    change it. Its responsible-role group (`dl`) is an exclusive choice. The
    current date is a parameter. */
module FormPage {
  import opened Util
  import opened FormRules
  import ImageManager

  datatype SectionName = TipoIspezione | Esito | Dl

  /** The page's `formData`: the text fields by name, the photos and the three groups. */
  datatype FormData = FormData(
    text: map<string, string>,
    images: seq<ImageManager.ImageEntry>,
    tipoIspezione: Section,
    esito: Section,
    dl: Section)

  function SectionOf(f: FormData, name: SectionName): Section
  {
    match name
    case TipoIspezione => f.tipoIspezione
    case Esito => f.esito
    case Dl => f.dl
  }

  /** The spread `{ ...prev, [name]: s }`: the named group is replaced,
      everything else stays. */
  function WithSection(f: FormData, name: SectionName, s: Section): (r: FormData)
    ensures SectionOf(r, name) == s
    ensures r.text == f.text && r.images == f.images
    ensures forall other :: other != name ==> SectionOf(r, other) == SectionOf(f, other)
  {
    match name
    case TipoIspezione => f.(tipoIspezione := s)
    case Esito => f.(esito := s)
    case Dl => f.(dl := s)
  }

  /** The starting state, with `today` the date `getTodayDate` formats:
      visual inspection, a conforming outcome and the structural role ticked. */
  function Initial(today: string): FormData
  {
    FormData(
      map[
        "dataIspezione" := today, "dataVerbale" := today, "numero" := "001",
        "nomeProgetto" := "XXX - Progetto di esempio", "lavorazioneVerificata" := "-",
        "verificaMateriale" := "-", "riferimentoProgetto" := "-", "ubicazione" := "-",
        "schedaControllo" := "-", "oggettoSopralluogo" := "-"],
      [],
      [Flag("visivo", true), Flag("rilievo", false), Flag("test", false), Flag("altro", false)],
      [Flag("conforme", true), Flag("nonConforme", false), Flag("osservazione", false)],
      [Flag("DLG", false), Flag("DLS", true), Flag("DL_FACCIATE", false), Flag("DL_ELETTRICI", false),
       Flag("DL_MECCANICI", false)])
  }

  /** At start exactly one role (`DLS`) is ticked, one inspection kind and one
      outcome are ticked, there are no photos, and every required field is
      filled once the date is. */
  lemma InitialState(today: string)
    requires today != ""
    ensures OnKeys(Initial(today).dl) == ["DLS"]
    ensures OnKeys(Initial(today).tipoIspezione) == ["visivo"]
    ensures OnKeys(Initial(today).esito) == ["conforme"]
    ensures Initial(today).images == []
    ensures forall field :: field in RequiredFields ==> Filled(Initial(today).text, field)
  {
    var f := Initial(today);
    assert OnKeys(f.dl) == [] + (["DLS"] + OnKeys(f.dl[2..]));
    assert OnKeys(f.tipoIspezione) == ["visivo"] + OnKeys(f.tipoIspezione[1..]);
    assert OnKeys(f.esito) == ["conforme"] + OnKeys(f.esito[1..]);
  }

  /** `handleCheckboxChange(section, field)`: in the role group every flag is
      cleared and `field` is set; in the other groups `field` is flipped.
      Everything outside the named group stays as it was. */
  function HandleCheckboxChange(f: FormData, section: SectionName, field: string): (r: FormData)
    ensures section == Dl ==> IsOn(r.dl, field) && forall k :: k != field ==> !IsOn(r.dl, k)
    ensures section != Dl ==> (IsOn(SectionOf(r, section), field) <==> !IsOn(SectionOf(f, section), field))
    ensures forall k :: k != field ==>
      (section != Dl ==> Lookup(SectionOf(r, section), k) == Lookup(SectionOf(f, section), k))
    ensures r.text == f.text && r.images == f.images
    ensures forall other :: other != section ==> SectionOf(r, other) == SectionOf(f, other)
  {
    WithSection(f, section, if section == Dl then SelectOnly(f.dl, field) else Toggle(SectionOf(f, section), field))
  }

  /** Ticking `DLS` and then `DL_FACCIATE` leaves only `DL_FACCIATE` ticked. */
  lemma RoleExample(today: string)
    ensures OnKeys(HandleCheckboxChange(HandleCheckboxChange(Initial(today), Dl, "DLS"), Dl, "DL_FACCIATE").dl)
      == ["DL_FACCIATE"]
  {
    SelectOnlyCountsOne(HandleCheckboxChange(Initial(today), Dl, "DLS").dl, "DL_FACCIATE");
  }

  /** After any role change exactly one role is ticked, and ticking the same
      role again changes nothing. */
  lemma RoleChoiceExclusive(f: FormData, field: string)
    ensures OnKeys(HandleCheckboxChange(f, Dl, field).dl) == [field]
    ensures HandleCheckboxChange(HandleCheckboxChange(f, Dl, field), Dl, field) == HandleCheckboxChange(f, Dl, field)
  {
    SelectOnlyCountsOne(f.dl, field);
    SelectOnlyIdempotent(f.dl, field);
  }

  /** In the inspection-kind and outcome groups, flipping an existing option
      twice gives the form back. */
  lemma CheckboxTwiceRestores(f: FormData, section: SectionName, field: string)
    requires section != Dl && field in Keys(SectionOf(f, section))
    ensures HandleCheckboxChange(HandleCheckboxChange(f, section, field), section, field) == f
  {
    ToggleTwice(SectionOf(f, section), field);
  }

  /** `handleInputChange`: the field named by the input takes its value. */
  function HandleInputChange(f: FormData, name: string, value: string): (r: FormData)
    ensures name in r.text && r.text[name] == value
    ensures forall k :: k != name ==> (k in r.text <==> k in f.text) && (k in f.text ==> r.text[k] == f.text[k])
    ensures r.images == f.images && r.tipoIspezione == f.tipoIspezione && r.esito == f.esito && r.dl == f.dl
  {
    f.(text := f.text[name := value])
  }

  /** Emptying a required field makes the form invalid; filling it back with
      a value restores the other fields' verdicts. */
  lemma InputChangeValidity(f: FormData, name: string, value: string)
    ensures value == "" ==> !Filled(HandleInputChange(f, name, value).text, name)
    ensures value != "" ==> Filled(HandleInputChange(f, name, value).text, name)
    ensures forall k :: k != name ==> (Filled(HandleInputChange(f, name, value).text, k) <==> Filled(f.text, k))
  {
  }

  /** `handleImagesChange`: the photo list is replaced, nothing else changes. */
  function HandleImagesChange(f: FormData, images: seq<ImageManager.ImageEntry>): (r: FormData)
    ensures r.images == images
    ensures r.text == f.text && r.tipoIspezione == f.tipoIspezione && r.esito == f.esito && r.dl == f.dl
  {
    f.(images := images)
  }
}
