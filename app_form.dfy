/** The form component that the application mounts: ten text fields and
    three checkbox groups, with a plain toggle for every group, the
    responsible-role group (`dl`) included. The current date is a parameter. */
module AppForm {
  import opened Util
  import opened FormRules

  datatype SectionName = TipoIspezione | Esito | Dl

  /** The component's `formData`. */
  datatype FormData = FormData(text: map<string, string>, tipoIspezione: Section, esito: Section, dl: Section)

  function SectionOf(f: FormData, name: SectionName): Section
  {
    match name
    case TipoIspezione => f.tipoIspezione
    case Esito => f.esito
    case Dl => f.dl
  }

  /** The spread `{ ...prev, [name]: s }`: the named group is replaced,
      everything else stays. */
  function WithSection(f: FormData, name: SectionName, s: Section): (r: FormData)
    ensures SectionOf(r, name) == s
    ensures r.text == f.text
    ensures forall other :: other != name ==> SectionOf(r, other) == SectionOf(f, other)
  {
    match name
    case TipoIspezione => f.(tipoIspezione := s)
    case Esito => f.(esito := s)
    case Dl => f.(dl := s)
  }

  /** The starting state, with `today` the formatted current date. */
  function Initial(today: string): FormData
  {
    FormData(
      map[
        "dataIspezione" := today, "dataVerbale" := today, "numero" := "001",
        "nomeProgetto" := "XXX - Progetto di esempio", "lavorazioneVerificata" := "-",
        "verificaMateriale" := "-", "riferimentoProgetto" := "-", "ubicazione" := "-",
        "schedaControllo" := "-", "oggettoSopralluogo" := "-"],
      [Flag("visivo", true), Flag("rilievo", false), Flag("test", false), Flag("altro", false)],
      [Flag("conforme", true), Flag("nonConforme", false), Flag("osservazione", false)],
      [Flag("generale", false), Flag("strutture", true), Flag("facciate", false), Flag("elettrici", false),
       Flag("meccanici", false)])
  }

  /** At start exactly one role (`strutture`) is ticked, and every required
      field is filled once the date is. */
  lemma InitialState(today: string)
    requires today != ""
    ensures OnKeys(Initial(today).dl) == ["strutture"]
    ensures OnKeys(Initial(today).tipoIspezione) == ["visivo"]
    ensures OnKeys(Initial(today).esito) == ["conforme"]
    ensures forall field :: field in RequiredFields ==> Filled(Initial(today).text, field)
  {
    var f := Initial(today);
    assert OnKeys(f.dl) == [] + (["strutture"] + OnKeys(f.dl[2..]));
    assert OnKeys(f.tipoIspezione) == ["visivo"] + OnKeys(f.tipoIspezione[1..]);
    assert OnKeys(f.esito) == ["conforme"] + OnKeys(f.esito[1..]);
  }

  /** `handleCheckboxChange(section, field)`: `field` is flipped in the named
      group; every other flag and group, and the text, stay as they were. */
  function HandleCheckboxChange(f: FormData, section: SectionName, field: string): (r: FormData)
    ensures IsOn(SectionOf(r, section), field) <==> !IsOn(SectionOf(f, section), field)
    ensures forall k :: k != field ==> Lookup(SectionOf(r, section), k) == Lookup(SectionOf(f, section), k)
    ensures r.text == f.text
    ensures forall other :: other != section ==> SectionOf(r, other) == SectionOf(f, other)
  {
    WithSection(f, section, Toggle(SectionOf(f, section), field))
  }

  /** Flipping an existing option twice gives the form back. */
  lemma CheckboxTwiceRestores(f: FormData, section: SectionName, field: string)
    requires field in Keys(SectionOf(f, section))
    ensures HandleCheckboxChange(HandleCheckboxChange(f, section, field), section, field) == f
  {
    ToggleTwice(SectionOf(f, section), field);
  }

  /** The role group is not kept exclusive: from the start, ticking `generale`
      leaves two roles ticked, and unticking `strutture` leaves none. */
  lemma RolesNotExclusive(today: string)
    ensures CountOn(HandleCheckboxChange(Initial(today), Dl, "generale").dl) == 2
    ensures CountOn(HandleCheckboxChange(Initial(today), Dl, "strutture").dl) == 0
  {
    var dl := Initial(today).dl;
    assert HandleCheckboxChange(Initial(today), Dl, "generale").dl == [Flag("generale", true)] + dl[1..];
    assert HandleCheckboxChange(Initial(today), Dl, "strutture").dl == [dl[0], Flag("strutture", false)] + dl[2..];
  }

  /** `handleInputChange`: the field named by the input takes its value. */
  function HandleInputChange(f: FormData, name: string, value: string): (r: FormData)
    ensures name in r.text && r.text[name] == value
    ensures forall k :: k != name ==> (k in r.text <==> k in f.text) && (k in f.text ==> r.text[k] == f.text[k])
    ensures r.tipoIspezione == f.tipoIspezione && r.esito == f.esito && r.dl == f.dl
  {
    f.(text := f.text[name := value])
  }
}
