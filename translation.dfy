/** The interface translation hook: a fixed Italian/English table, the
    current language (Italian at start) and `t`, which falls back to the key
    itself when there is nothing to show. */
module Translation {
  import opened Util

  datatype Language = It | En

  /** One table entry: the Italian and the English text. */
  datatype Entry = Entry(it: string, en: string)
  {
    function In(language: Language): string
    {
      match language
      case It => it
      case En => en
    }
  }

  /** A table written as an object literal: keys with their entries, in order. */
  type Table = seq<(string, Entry)>

  predicate HasKey(table: Table, key: string)
  {
    exists i :: 0 <= i < |table| && table[i].0 == key
  }

  /** `table[key]`: the entry under `key`, if any. */
  function Find(table: Table, key: string): (r: Option<Entry>)
    ensures r.None? <==> !HasKey(table, key)
    ensures r.Some? ==> exists i :: 0 <= i < |table| && table[i] == (key, r.value)
  {
    if table == [] then None
    else if table[0].0 == key then Some(table[0].1)
    else
      var r := Find(table[1..], key);
      assert forall i :: 0 <= i < |table| - 1 ==> table[1..][i] == table[i + 1];
      assert HasKey(table[1..], key) ==> HasKey(table, key);
      assert HasKey(table, key) ==> HasKey(table[1..], key) by {
        if HasKey(table, key) {
          var i :| 0 <= i < |table| && table[i].0 == key;
          assert i > 0 && table[1..][i - 1].0 == key;
        }
      }
      r
  }

  /** `table[key]?.[language] || key`: the entry's text in the language, or
      the key itself when the key is missing or the text is empty. */
  function LookupOrKey(table: Table, key: string, language: Language): (r: string)
    ensures Find(table, key).Some? && Find(table, key).value.In(language) != [] ==> r == Find(table, key).value.In(language)
    ensures Find(table, key).None? || Find(table, key).value.In(language) == [] ==> r == key
  {
    match Find(table, key)
    case Some(e) => if e.In(language) != [] then e.In(language) else key
    case None => key
  }

  /** Every entry has text in both languages. */
  predicate Complete(table: Table)
  {
    forall i :: 0 <= i < |table| ==> |table[i].1.it| > 0 && |table[i].1.en| > 0
  }

  /** In a complete table the fallback fires exactly for missing keys. */
  lemma FallbackIffMissing(table: Table, key: string, language: Language)
    requires Complete(table)
    ensures HasKey(table, key) ==> LookupOrKey(table, key, language) == Find(table, key).value.In(language) != []
    ensures !HasKey(table, key) ==> LookupOrKey(table, key, language) == key
  {
    if HasKey(table, key) {
      var e := Find(table, key).value;
      var i :| 0 <= i < |table| && table[i] == (key, e);
      assert e.it != [] && e.en != [];
    }
  }

  lemma {:induction false} CompleteAppend(a: Table, b: Table)
    requires Complete(a) && Complete(b)
    ensures Complete(a + b)
  {
    forall i | 0 <= i < |a + b| ensures |(a + b)[i].1.it| > 0 && |(a + b)[i].1.en| > 0 {
      if i >= |a| {
        assert (a + b)[i] == b[i - |a|];
      }
    }
  }

  /** The `translations` object of the hook, in source order (in blocks of ten entries). */
  const Translations: Table := Block0 + Block1 + Block2 + Block3 + Block4 + Block5 + Block6

  const Block0: Table := [
      ("scheda_verifica", Entry("SCHEDA DI VERIFICA", "INSPECTION REPORT")),
      ("posa_installazione", Entry("Posa/Installazione/Lavoro", "Installation/Works")),
      ("progetto", Entry("PROGETTO", "PROJECT")),
      ("metodo_verifica", Entry("METODO DI VERIFICA", "CHECKING METHODS")),
      ("oggetto_sopralluogo", Entry("OGGETTO DEL SOPRALLUOGO", "DESCRIPTION")),
      ("esito_controllo", Entry("ESITO CONTROLLO", "CHECK RESULT")),
      ("data_ispezione", Entry("Data ispezione", "Inspection date")),
      ("n_progressivo", Entry("N. progressivo", "Number")),
      ("lavorazione_verificata", Entry("Lavorazione Verificata", "Inspected works")),
      ("verifica_materiale", Entry("Verifica materiale previsto", "Material check"))
  ]

  const Block1: Table := [
      ("riferimento_progetto", Entry("Riferimento Progetto costruttivo", "Shop drawings reference")),
      ("ubicazione", Entry("Ubicazione - Localizzazione", "Location")),
      ("scheda_controllo", Entry("Scheda controllo lavorazione", "Checklist")),
      ("visivo", Entry("Visivo", "Visual")),
      ("rilievo_misure", Entry("Rilievo/Verifica misure", "Survey/Measurements")),
      ("test_collaudo", Entry("Test/Collaudo", "Test/Commissioning")),
      ("altro", Entry("Altro", "Other")),
      ("conforme_positivo", Entry("Conforme/Positivo", "Conformant/Positive")),
      ("non_conforme", Entry("Non conforme", "Non-conformant")),
      ("osservazione", Entry("Osservazione", "Observation"))
  ]

  const Block2: Table := [
      ("nota_osservazione", Entry("* Tale osservazione è da considerarsi prescrittiva – da ottemperare", "* Please consider this observation as a prescription, it must be followed")),
      ("data_verbale", Entry("Data verbale", "Report date")),
      ("ispettore", Entry("Ispettore", "Inspector")),
      ("per_conto_di", Entry("Per conto di", "On behalf of")),
      ("firma", Entry("Firma", "Signature")),
      ("footer_pdf", Entry("Redesco Progetti srl - Scheda di Verifica | Pagina", "Redesco Progetti srl - Inspection Report | Page")),
      ("di", Entry("di", "of")),
      ("DLG", Entry("DLG", "Gen. COW")),
      ("DLS", Entry("DLS", "Struct. COW")),
      ("Collaudatore", Entry("Collaudatore", "Static Tester"))
  ]

  const Block3: Table := [
      ("dl_facciate", Entry("DL Facciate", "Facades COW")),
      ("dl_elettrici", Entry("DLI Ele.", "Elec. COW")),
      ("dl_meccanici", Entry("DLI Mec.", "Mech. COW")),
      ("figura", Entry("Figura", "Figure")),
      ("verbale_ispezione", Entry("Verbale di Ispezione", "Inspection Report")),
      ("lingua", Entry("Lingua", "Language")),
      ("azienda", Entry("Azienda", "Company")),
      ("numero", Entry("Numero", "Number")),
      ("numero_commessa", Entry("Numero Commessa", "Order Number")),
      ("nome_progetto", Entry("Nome Progetto", "Project Name"))
  ]

  const Block4: Table := [
      ("lavorazione_verificata_label", Entry("Lavorazione Verificata", "Inspected works")),
      ("verifica_materiale_label", Entry("Verifica Materiale", "Material check")),
      ("riferimento_progetto_label", Entry("Riferimento Progetto", "Shop drawings reference")),
      ("ubicazione_label", Entry("Ubicazione", "Location")),
      ("scheda_controllo_label", Entry("Scheda Controllo", "Checklist")),
      ("ispettore_label", Entry("Ispettore", "Inspector")),
      ("oggetto_sopralluogo_label", Entry("Oggetto del Sopralluogo", "Description")),
      ("tipo_ispezione", Entry("Tipo Ispezione", "Inspection type")),
      ("esito", Entry("Esito", "Result")),
      ("dl", Entry("In qualità di", "As"))
  ]

  const Block5: Table := [
      ("tab_dati", Entry("Dati", "Data")),
      ("tab_immagini", Entry("Immagini", "Images")),
      ("genera_documento", Entry("Genera Documento", "Generate Document")),
      ("esporta_cache", Entry("Esporta Cache", "Export Cache")),
      ("bozze_salvate", Entry("Bozze Salvate", "Saved Drafts")),
      ("importa_cache", Entry("Importa Cache", "Import Cache")),
      ("scarica_bozza", Entry("Scarica Bozza", "Download Draft")),
      ("cancella_campi", Entry("Cancella Campi", "Clear Fields")),
      ("scarica_pdf", Entry("Scarica PDF", "Download PDF")),
      ("grassetto", Entry("Grassetto", "Bold"))
  ]

  const Block6: Table := [
      ("corsivo", Entry("Corsivo", "Italic")),
      ("sottolineato", Entry("Sottolineato", "Underlined")),
      ("bozze_salvate_cache", Entry("Bozze Salvate in Cache", "Saved Drafts in Cache")),
      ("nessuna_bozza", Entry("Nessuna bozza salvata", "No saved drafts")),
      ("salvato_il", Entry("Salvato il", "Saved on")),
      ("carica", Entry("Carica", "Load")),
      ("elimina", Entry("Elimina", "Delete")),
      ("generazione_pdf", Entry("Generazione PDF...", "Generating PDF..."))
  ]

  /** Every entry of the table has Italian and English text. */
  lemma TranslationsComplete()
    ensures Complete(Translations)
    ensures |Translations| == 68
  {
    BlocksComplete();
    CompleteAppend(Block0, Block1);
    CompleteAppend(Block0 + Block1, Block2);
    CompleteAppend(Block0 + Block1 + Block2, Block3);
    CompleteAppend(Block0 + Block1 + Block2 + Block3, Block4);
    CompleteAppend(Block0 + Block1 + Block2 + Block3 + Block4, Block5);
    CompleteAppend(Block0 + Block1 + Block2 + Block3 + Block4 + Block5, Block6);
  }

  lemma BlocksComplete()
    ensures Complete(Block0) && Complete(Block1) && Complete(Block2) && Complete(Block3)
    ensures Complete(Block4) && Complete(Block5) && Complete(Block6)
  {
    Block0Complete();
    Block1Complete();
    Block2Complete();
    Block3Complete();
    Block4Complete();
    Block5Complete();
    Block6Complete();
  }

  lemma Block0Complete() ensures Complete(Block0) {}
  lemma Block1Complete() ensures Complete(Block1) {}
  lemma Block2Complete() ensures Complete(Block2) {}
  lemma Block3Complete() ensures Complete(Block3) {}
  lemma Block4Complete() ensures Complete(Block4) {}
  lemma Block5Complete() ensures Complete(Block5) {}
  lemma Block6Complete() ensures Complete(Block6) {}

  /** The hook's state: the language chosen. */
  datatype TranslationState = TranslationState(language: Language)

  /** `useState<Language>('it')`. */
  const Initial: TranslationState := TranslationState(It)

  /** `t(key)`. */
  function T(state: TranslationState, key: string): string
  {
    LookupOrKey(Translations, key, state.language)
  }

  /** `changeLanguage(l)` replaces the language. */
  function ChangeLanguage(state: TranslationState, l: Language): (s: TranslationState)
    ensures s.language == l
  {
    TranslationState(l)
  }

  /** `t` gives the table text in the current language for a known key (never
      empty), the key itself otherwise; after `changeLanguage(l)` it answers in `l`. */
  lemma TSpec(state: TranslationState, key: string, l: Language)
    ensures HasKey(Translations, key) ==> T(state, key) == Find(Translations, key).value.In(state.language) != []
    ensures !HasKey(Translations, key) ==> T(state, key) == key
    ensures HasKey(Translations, key) ==> T(ChangeLanguage(state, l), key) == Find(Translations, key).value.In(l)
  {
    TranslationsComplete();
    FallbackIffMissing(Translations, key, state.language);
    FallbackIffMissing(Translations, key, l);
  }

  /** The interface starts in Italian and switches to English on request. */
  lemma InitialItalian()
    ensures T(Initial, "scheda_verifica") == "SCHEDA DI VERIFICA"
    ensures T(ChangeLanguage(Initial, En), "scheda_verifica") == "INSPECTION REPORT"
  {
  }
}
