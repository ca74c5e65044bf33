/** The reference PDF document: its own translation table and option-label
    maps (each falling back to the key), the listing of the selected roles,
    the checkbox rows, the branding of its header, and the advisory page-count
    estimate `calculateExpectedPages`. */
module ReferenceDocument {
  import opened Util
  import opened FormRules
  import opened Translation
  import opened HeaderSelection
  import InlineMarkup

  /** The record this document reads; it reads `numeroCommessa`, which the
      shared form type does not declare. */
  datatype ReportData = ReportData(
    numeroCommessa: string,
    nomeProgetto: string,
    numero: string,
    oggettoSopralluogo: string,
    tipoIspezione: Section,
    esito: Section,
    dl: Section)

  // ---------------------------------------------------------------------------
  // Tables
  // ---------------------------------------------------------------------------

  /** The `translations` object inside `getTranslation`. */
  const ReferenceTranslations: Table := RefBlock0 + RefBlock1 + RefBlock2

  const RefBlock0: Table := [
      ("scheda_verifica", Entry("SCHEDA DI VERIFICA", "INSPECTION REPORT")),
      ("posa_installazione", Entry("Posa/Installazione/Lavoro", "Installation/Work")),
      ("progetto", Entry("PROGETTO", "PROJECT")),
      ("metodo_verifica", Entry("METODO DI VERIFICA", "CHECKING METHODS")),
      ("oggetto_sopralluogo", Entry("OGGETTO DEL SOPRALLUOGO", "DESCRIPTION")),
      ("esito_controllo", Entry("ESITO CONTROLLO", "CHECK RESULT")),
      ("data_ispezione", Entry("Data ispezione", "Inspection date")),
      ("n_progressivo", Entry("N. progressivo", "Number")),
      ("lavorazione_verificata", Entry("Lavorazione Verificata", "Inspected works")),
      ("verifica_materiale", Entry("Verifica materiale previsto", "Material check"))
  ]

  const RefBlock1: Table := [
      ("riferimento_progetto", Entry("Riferimento Progetto (ESE/COSTR)", "Shop drawings reference")),
      ("ubicazione", Entry("Ubicazione - Localizzazione", "Location")),
      ("scheda_controllo", Entry("Scheda controllo lavorazione", "Checklist")),
      ("nota_osservazione", Entry("* Tale osservazione è da considerarsi prescrittiva – da ottemperare", "* Please consider this observation as a prescription, it must be followed")),
      ("data_verbale", Entry("Data verbale", "Report date")),
      ("ispettore", Entry("Ispettore", "Inspector")),
      ("per_conto_di", Entry("Per conto di", "On behalf of")),
      ("firma", Entry("Firma", "Signature")),
      ("footer_pdf", Entry("Redesco Progetti srl - Scheda di Verifica | Pagina", "Redesco Progetti srl - Inspection Report | Page")),
      ("di", Entry("di", "of"))
  ]

  const RefBlock2: Table := [
      ("figura", Entry("Figura", "Figure"))
  ]

  const TipoIspezioneLabels: Table := [
      ("visivo", Entry("Visivo", "Visual")),
      ("rilievo", Entry("Rilievo/Verifica misure", "Survey/Measurements")),
      ("test", Entry("Test/Collaudo", "Test/Commissioning")),
      ("altro", Entry("Altro", "Other"))
  ]

  const EsitoLabels: Table := [
      ("conforme", Entry("Conforme/Positivo", "Conformant/Positive")),
      ("nonConforme", Entry("Non conforme", "Non-conformant")),
      ("osservazione", Entry("Osservazione*", "Observation*"))
  ]

  const DlLabels: Table := [
      ("DLG", Entry("DLG", "Gen. COW")),
      ("DLS", Entry("DLS", "Struct. COW")),
      ("COLLAUDATORE", Entry("Collaudatore", "Static Tester")),
      ("DL_FACCIATE", Entry("DL Facciate", "Facades COW")),
      ("DL_ELETTRICI", Entry("DLI Ele.", "Elec. COW")),
      ("DL_MECCANICI", Entry("DLI Mec.", "Mech. COW"))
  ]

  /** Every entry of the four tables has text in both languages. */
  lemma ReferenceTablesComplete()
    ensures Complete(ReferenceTranslations) && |ReferenceTranslations| == 21
    ensures Complete(TipoIspezioneLabels) && Complete(EsitoLabels) && Complete(DlLabels)
  {
    assert Complete(RefBlock0);
    assert Complete(RefBlock1);
    assert Complete(RefBlock2);
    CompleteAppend(RefBlock0, RefBlock1);
    CompleteAppend(RefBlock0 + RefBlock1, RefBlock2);
  }

  /** `getTranslation(key, language)`. */
  function GetTranslation(key: string, language: Language): string
  {
    LookupOrKey(ReferenceTranslations, key, language)
  }

  /** `getTranslation` and the three label lookups return the table text for a
      known key and the key itself for an unknown one. */
  lemma LookupsFallBackToKey(key: string, language: Language)
    ensures HasKey(ReferenceTranslations, key) ==> GetTranslation(key, language) == Find(ReferenceTranslations, key).value.In(language) != []
    ensures !HasKey(ReferenceTranslations, key) ==> GetTranslation(key, language) == key
    ensures !HasKey(TipoIspezioneLabels, key) ==> LookupOrKey(TipoIspezioneLabels, key, language) == key
    ensures !HasKey(EsitoLabels, key) ==> LookupOrKey(EsitoLabels, key, language) == key
    ensures !HasKey(DlLabels, key) ==> LookupOrKey(DlLabels, key, language) == key
    ensures HasKey(DlLabels, key) ==> LookupOrKey(DlLabels, key, language) == Find(DlLabels, key).value.In(language) != []
  {
    ReferenceTablesComplete();
    FallbackIffMissing(ReferenceTranslations, key, language);
    FallbackIffMissing(DlLabels, key, language);
  }

  // ---------------------------------------------------------------------------
  // Listings
  // ---------------------------------------------------------------------------

  /** The header's role column: `Object.entries(data.dl).map(([k, v]) => v && label)`
      shows the label of every true flag, in key order. */
  function RoleLines(dl: Section, language: Language): (lines: seq<string>)
    ensures |lines| == CountOn(dl)
  {
    var keys := OnKeys(dl);
    seq(|keys|, i requires 0 <= i < |keys| => LookupOrKey(DlLabels, keys[i], language))
  }

  /** Each role line is the label of a role whose flag is true, and every such
      role is listed. */
  lemma RoleLinesSpec(dl: Section, language: Language)
    requires DistinctKeys(dl)
    ensures forall i :: 0 <= i < |RoleLines(dl, language)| ==>
      IsOn(dl, OnKeys(dl)[i]) && RoleLines(dl, language)[i] == LookupOrKey(DlLabels, OnKeys(dl)[i], language)
    ensures forall k :: IsOn(dl, k) ==> LookupOrKey(DlLabels, k, language) in RoleLines(dl, language)
  {
    OnKeysSound(dl);
    var keys := OnKeys(dl);
    forall k | IsOn(dl, k) ensures LookupOrKey(DlLabels, k, language) in RoleLines(dl, language) {
      var i :| 0 <= i < |keys| && keys[i] == k;
      assert RoleLines(dl, language)[i] == LookupOrKey(DlLabels, k, language);
    }
  }

  /** One option of the method or outcome section: its checkbox image and label. */
  datatype CheckboxRow = CheckboxRow(checked: bool, text: string)

  /** The method and outcome sections show every option, ticked or not. */
  function CheckboxRows(section: Section, labels: Table, language: Language): (rows: seq<CheckboxRow>)
    ensures |rows| == |section|
  {
    if section == [] then []
    else
      var row := CheckboxRow(section[0].on, LookupOrKey(labels, section[0].key, language));
      [row] + CheckboxRows(section[1..], labels, language)
  }

  function CountChecked(rows: seq<CheckboxRow>): nat
  {
    if rows == [] then 0 else (if rows[0].checked then 1 else 0) + CountChecked(rows[1..])
  }

  /** Row `i` shows option `i`'s flag and label; the ticked rows are as many
      as the true flags. */
  lemma {:induction false} CheckboxRowsSpec(section: Section, labels: Table, language: Language)
    ensures forall i :: 0 <= i < |section| ==>
      CheckboxRows(section, labels, language)[i] == CheckboxRow(section[i].on, LookupOrKey(labels, section[i].key, language))
    ensures CountChecked(CheckboxRows(section, labels, language)) == CountOn(section)
  {
    if section != [] {
      CheckboxRowsSpec(section[1..], labels, language);
      var rows := CheckboxRows(section, labels, language);
      assert rows[1..] == CheckboxRows(section[1..], labels, language);
    }
  }

  // ---------------------------------------------------------------------------
  // Header branding
  // ---------------------------------------------------------------------------

  /** The logo and company shown in this document's header. */
  function HeaderBranding(headerType: HeaderType): (r: (string, string))
    ensures r.0 == Config(headerType).logoPath
  {
    if headerType == Maestrale then ("logo_mae.png", "Maestrale Srl") else ("logo.png", " ")
  }

  /** The logo follows the branding hook, and so does the company name for
      Maestrale; for Redesco this header shows a blank name instead. */
  lemma HeaderBrandingAgrees()
    ensures HeaderBranding(Maestrale).1 == Config(Maestrale).companyName
    ensures HeaderBranding(Redesco).1 != Config(Redesco).companyName
  {
  }

  // ---------------------------------------------------------------------------
  // Page-count estimate
  // ---------------------------------------------------------------------------

  const PageHeight: nat := 841
  const UsableHeight: nat := 641

  /** The height reserved for the description: a minimum when it is empty,
      otherwise 12 points per estimated 90-character line plus 35. */
  function DescriptionHeight(length: nat): nat
  {
    if length > 0 then CeilDiv(length, 90) * 12 + 35 else 45
  }

  /** The estimated height in points: 240 for the fixed blocks (title, project,
      five data rows, signatures), then the methods, the description and the
      outcomes. */
  function EstimatedHeight(methods: nat, length: nat, results: nat): nat
  {
    240 + (CeilDiv(methods, 4) * 15 + 25) + DescriptionHeight(length) + (CeilDiv(results, 3) * 15 + 45)
  }

  function EstimatedPages(methods: nat, length: nat, results: nat): nat
  {
    MaxInt(1, CeilDiv(EstimatedHeight(methods, length, results), UsableHeight))
  }

  /** `calculateExpectedPages`: accumulates the estimated height block by
      block, then divides by the usable height and rounds up, at least 1. */
  method CalculateExpectedPages(data: ReportData) returns (pages: nat)
    ensures pages == EstimatedPages(CountOn(data.tipoIspezione), |data.oggettoSopralluogo|, CountOn(data.esito))
    ensures pages >= 1
  {
    var estimatedHeight: nat := 0;
    var usableHeight := PageHeight - 200;
    estimatedHeight := estimatedHeight + 35;
    estimatedHeight := estimatedHeight + 45;
    estimatedHeight := estimatedHeight + 125;
    var selectedMethods := CountOn(data.tipoIspezione);
    var methodsRows := CeilDiv(selectedMethods, 4);
    estimatedHeight := estimatedHeight + methodsRows * 15 + 25;
    var textLength := |data.oggettoSopralluogo|;
    if textLength > 0 {
      var estimatedLines := CeilDiv(textLength, 90);
      estimatedHeight := estimatedHeight + estimatedLines * 12 + 35;
    } else {
      estimatedHeight := estimatedHeight + 45;
    }
    var selectedResults := CountOn(data.esito);
    var resultsRows := CeilDiv(selectedResults, 3);
    estimatedHeight := estimatedHeight + resultsRows * 15 + 45;
    estimatedHeight := estimatedHeight + 35;
    var p := CeilDiv(estimatedHeight, usableHeight);
    pages := MaxInt(1, p);
  }

  /** A longer description never lowers the estimate. */
  lemma EstimateMonotone(methods: nat, length: nat, length': nat, results: nat)
    requires length <= length'
    ensures EstimatedPages(methods, length, results) <= EstimatedPages(methods, length', results)
  {
    if length > 0 {
      CeilDivMonotone(length, length', 90);
    }
    CeilDivMonotone(EstimatedHeight(methods, length, results), EstimatedHeight(methods, length', results), UsableHeight);
  }

  /** With at most four methods and three outcomes selected, a description of
      up to 1980 characters fits on one page. */
  lemma ShortDescriptionOnePage(methods: nat, length: nat, results: nat)
    requires methods <= 4 && results <= 3 && length <= 1980
    ensures EstimatedPages(methods, length, results) == 1
  {
    CeilDivMonotone(methods, 4, 4);
    CeilDivMonotone(results, 3, 3);
    CeilDivMonotone(length, 1980, 90);
    assert CeilDiv(1980, 90) == 22;
    assert EstimatedHeight(methods, length, results) <= 639;
    CeilDivMonotone(EstimatedHeight(methods, length, results), 641, UsableHeight);
  }

  /** The bound is tight: with at least one method and one outcome, 1981
      characters need a second page. */
  lemma LongDescriptionTwoPages(methods: nat, results: nat)
    requires 1 <= methods <= 4 && 1 <= results <= 3
    ensures EstimatedPages(methods, 1981, results) == 2
  {
    assert CeilDiv(methods, 4) == 1;
    assert CeilDiv(results, 3) == 1;
    assert CeilDiv(1981, 90) == 23;
    assert EstimatedHeight(methods, 1981, results) == 651;
  }

  /** The record's four methods and three outcomes: any description up to
      1980 characters gives exactly one page. */
  lemma ReportOnePage(data: ReportData)
    requires |data.tipoIspezione| == 4 && |data.esito| == 3 && |data.oggettoSopralluogo| <= 1980
    ensures EstimatedPages(CountOn(data.tipoIspezione), |data.oggettoSopralluogo|, CountOn(data.esito)) == 1
  {
    ShortDescriptionOnePage(CountOn(data.tipoIspezione), |data.oggettoSopralluogo|, CountOn(data.esito));
  }

  /** The description block of this document: the formatted text of `oggettoSopralluogo`. */
  method DescriptionRuns(data: ReportData) returns (runs: seq<InlineMarkup.Run>)
    ensures runs == InlineMarkup.Rendered(data.oggettoSopralluogo, {})
  {
    runs := InlineMarkup.RenderFormattedText(data.oggettoSopralluogo, {});
  }
}
