/** Translation tables and lookup of internal/ui/localization.go. */
module Localization {

  /** A `language.Tag`, identified by its BCP 47 text. */
  datatype Lang = Lang(tag: string)

  const English: Lang := Lang("en")
  const French: Lang := Lang("fr")

  const EnglishTable: map<string, string> := map[
    "windowTitle" := "Download Manager",
    "searchPlaceholder" := "Search downloads...",
    "globalSpeed" := "Global speed: %s",
    "filters" := "Filters",
    "all" := "All",
    "inProgress" := "In Progress",
    "completed" := "Completed",
    "deleted" := "Deleted",
    "errors" := "Errors",
    "deleteConfirmTitle" := "Delete Download",
    "deleteConfirmMessage" := "Do you want to delete this download?",
    "deleteFileConfirmMessage" := "Do you also want to delete the local file?",
    "errorTitle" := "Error",
    "invalidURL" := "The following URL is invalid: ",
    "noValidURL" := "Please enter at least one valid URL.",
    "downloadErrorTitle" := "Download Error",
    "downloadsCompleted" := "Downloads completed",
    "downloadsCompletedMessage" := "%d out of %d files downloaded successfully.",
    "settings" := "Settings",
    "language" := "Language",
    "english" := "English",
    "french" := "French",
    "close" := "Close",
    "destinationFolder" := "Destination folder",
    "numberOfChunks" := "Number of chunks",
    "choose" := "Choose",
    "save" := "Save",
    "cancel" := "Cancel",
    "enterURLs" := "Enter URLs (one per line)",
    "addDownloadPrompt" := "Enter the URLs of the files you want to download:",
    "addDownload" := "Add Download",
    "add" := "Add",
    "errorSavingSettings" := "Error saving settings",
    "settingsSaved" := "Settings saved",
    "settingsSavedMessage" := "Your settings have been saved successfully."
  ]

  const FrenchTable: map<string, string> := map[
    "windowTitle" := "Gestionnaire de téléchargement",
    "searchPlaceholder" := "Rechercher des téléchargements...",
    "globalSpeed" := "Vitesse globale : %s",
    "filters" := "Filtres",
    "all" := "Tous",
    "inProgress" := "En cours",
    "completed" := "Terminés",
    "deleted" := "Supprimés",
    "errors" := "Erreurs",
    "deleteConfirmTitle" := "Supprimer le téléchargement",
    "deleteConfirmMessage" := "Voulez-vous supprimer ce téléchargement ?",
    "deleteFileConfirmMessage" := "Voulez-vous aussi supprimer le fichier local ?",
    "errorTitle" := "Erreur",
    "invalidURL" := "L'URL suivante est invalide : ",
    "noValidURL" := "Veuillez entrer au moins une URL valide.",
    "downloadErrorTitle" := "Erreur de téléchargement",
    "downloadsCompleted" := "Téléchargements terminés",
    "downloadsCompletedMessage" := "%d sur %d fichiers téléchargés avec succès.",
    "settings" := "Paramètres",
    "language" := "Langue",
    "english" := "Anglais",
    "french" := "Français",
    "close" := "Fermer",
    "destinationFolder" := "Dossier de destination",
    "numberOfChunks" := "Nombre de chunks",
    "choose" := "Choisir",
    "save" := "Enregistrer",
    "cancel" := "Annuler",
    "enterURLs" := "Entrez les URLs (une par ligne)",
    "addDownloadPrompt" := "Entrez les URLs des fichiers que vous souhaitez télécharger :",
    "addDownload" := "Ajouter un téléchargement",
    "add" := "Ajouter",
    "errorSavingSettings" := "Erreur lors de l'enregistrement des paramètres",
    "settingsSaved" := "Paramètres enregistrés",
    "settingsSavedMessage" := "Vos paramètres ont été enregistrés avec succès."
  ]

  /** The `translations` table: one map per language that has one. */
  const Translations: map<Lang, map<string, string>> := map[English := EnglishTable, French := FrenchTable]

  /** `T(key)` under language `lang`: the language's entry for the key, or else the key. A
      language without a table behaves like a table without the key. */
  function Translate(lang: Lang, key: string): (r: string)
    ensures r != key ==> lang in Translations && key in Translations[lang]
  {
    if lang in Translations && key in Translations[lang] then Translations[lang][key] else key
  }

  /** The process-wide `currentLang`. */
  class Locale {
    var current: Lang

    constructor ()
      ensures current == English
    {
      current := English;
    }

    /** `T`: a key is only ever replaced by an entry of the current language's table. */
    function T(key: string): (r: string)
      reads this
      ensures r != key ==> current in Translations && key in Translations[current]
    {
      Translate(current, key)
    }

    /** `SetLanguage` only assigns the current language. */
    method SetLanguage(lang: Lang)
      modifies this
      ensures current == lang
    {
      current := lang;
    }
  }

  /** Under a language with no table every key comes back unchanged. */
  lemma UnknownLanguageIsIdentity(lang: Lang, key: string)
    requires lang != English && lang != French
    ensures Translate(lang, key) == key
  {
  }

  /** A key missing from both tables comes back unchanged in every language. */
  lemma UnlistedKeyEchoed(lang: Lang, key: string)
    requires key !in EnglishTable && key !in FrenchTable
    ensures Translate(lang, key) == key
  {
  }

  /** Both tables define the same keys. */
  lemma TablesShareKeys()
    ensures EnglishTable.Keys == FrenchTable.Keys
  {
    assert forall k :: k in EnglishTable ==> k in FrenchTable;
    assert forall k :: k in FrenchTable ==> k in EnglishTable;
  }

  /** A key of the English table is translated, never echoed, in English. */
  lemma EnglishKeysTranslated(key: string)
    requires key in EnglishTable
    ensures Translate(English, key) == EnglishTable[key] != key
  {
    EnglishTableNeverEchoes(key);
    TranslateEnglish(key);
  }

  lemma EnglishTableNeverEchoes(key: string)
    requires key in EnglishTable
    ensures EnglishTable[key] != key
  {
  }

  /** A key of the French table is translated, never echoed, in French. */
  lemma FrenchKeysTranslated(key: string)
    requires key in FrenchTable
    ensures Translate(French, key) == FrenchTable[key] != key
  {
    FrenchTableNeverEchoes(key);
    TranslateFrench(key);
  }

  lemma FrenchTableNeverEchoes(key: string)
    requires key in FrenchTable
    ensures FrenchTable[key] != key
  {
  }

  /** The labels of the five filters of the side menu under `lang`. */
  function FilterLabels(lang: Lang): (labels: seq<string>)
    ensures |labels| == 5
  {
    [Translate(lang, "all"), Translate(lang, "inProgress"), Translate(lang, "completed"),
     Translate(lang, "deleted"), Translate(lang, "errors")]
  }

  predicate Distinct5(labels: seq<string>)
    requires |labels| == 5
  {
    && labels[0] != labels[1] && labels[0] != labels[2] && labels[0] != labels[3] && labels[0] != labels[4]
    && labels[1] != labels[2] && labels[1] != labels[3] && labels[1] != labels[4]
    && labels[2] != labels[3] && labels[2] != labels[4]
    && labels[3] != labels[4]
  }

  /** Under English, `Translate` is a lookup in the English table with the key as fallback. */
  lemma TranslateEnglish(key: string)
    ensures Translate(English, key) == if key in EnglishTable then EnglishTable[key] else key
  {
    assert Translations[English] == EnglishTable;
  }

  /** Under French, `Translate` is a lookup in the French table with the key as fallback. */
  lemma TranslateFrench(key: string)
    ensures Translate(French, key) == if key in FrenchTable then FrenchTable[key] else key
  {
    assert Translations[French] == FrenchTable;
  }

  // One lookup per lemma keeps each proof about the 35-entry tables small.
  lemma EnglishAll()
    ensures "all" in EnglishTable && EnglishTable["all"] == "All"
  {
  }

  lemma EnglishInProgress()
    ensures "inProgress" in EnglishTable && EnglishTable["inProgress"] == "In Progress"
  {
  }

  lemma EnglishCompleted()
    ensures "completed" in EnglishTable && EnglishTable["completed"] == "Completed"
  {
  }

  lemma EnglishDeleted()
    ensures "deleted" in EnglishTable && EnglishTable["deleted"] == "Deleted"
  {
  }

  lemma EnglishErrors()
    ensures "errors" in EnglishTable && EnglishTable["errors"] == "Errors"
  {
  }

  lemma EnglishFilterLabels()
    ensures FilterLabels(English) == ["All", "In Progress", "Completed", "Deleted", "Errors"]
  {
    EnglishAll();
    EnglishInProgress();
    EnglishCompleted();
    EnglishDeleted();
    EnglishErrors();
    TranslateEnglish("all");
    TranslateEnglish("inProgress");
    TranslateEnglish("completed");
    TranslateEnglish("deleted");
    TranslateEnglish("errors");
  }

  lemma FrenchAll()
    ensures "all" in FrenchTable && FrenchTable["all"] == "Tous"
  {
  }

  lemma FrenchInProgress()
    ensures "inProgress" in FrenchTable && FrenchTable["inProgress"] == "En cours"
  {
  }

  lemma FrenchCompleted()
    ensures "completed" in FrenchTable && FrenchTable["completed"] == "Terminés"
  {
  }

  lemma FrenchDeleted()
    ensures "deleted" in FrenchTable && FrenchTable["deleted"] == "Supprimés"
  {
  }

  lemma FrenchErrors()
    ensures "errors" in FrenchTable && FrenchTable["errors"] == "Erreurs"
  {
  }

  lemma FrenchFilterLabels()
    ensures FilterLabels(French) == ["Tous", "En cours", "Terminés", "Supprimés", "Erreurs"]
  {
    FrenchAll();
    FrenchInProgress();
    FrenchCompleted();
    FrenchDeleted();
    FrenchErrors();
    TranslateFrench("all");
    TranslateFrench("inProgress");
    TranslateFrench("completed");
    TranslateFrench("deleted");
    TranslateFrench("errors");
  }

  lemma UntranslatedFilterLabels(lang: Lang)
    requires lang != English && lang != French
    ensures FilterLabels(lang) == ["all", "inProgress", "completed", "deleted", "errors"]
  {
  }

  /** In every language the five filter labels are distinct, so at most one case of the
      filter switch can match a label. */
  lemma FilterLabelsDistinct(lang: Lang)
    ensures Distinct5(FilterLabels(lang))
  {
    if lang == English {
      EnglishLabelsDistinct();
    } else if lang == French {
      FrenchLabelsDistinct();
    } else {
      UntranslatedFilterLabels(lang);
    }
  }

  lemma EnglishLabelsDistinct()
    ensures Distinct5(FilterLabels(English))
  {
    EnglishFilterLabels();
  }

  lemma FrenchLabelsDistinct()
    ensures Distinct5(FilterLabels(French))
  {
    FrenchFilterLabels();
  }
}
