/**
 * The user-interface language: one module-level setting, English at start,
 * and the string table that matches it.
 */
module Translations {

  /** language_t. As a C enum it can hold any int, not only the two named
      values. */
  type Language = int
  const LANG_ENGLISH: Language := 0
  const LANG_SPANISH: Language := 1

  /** translations_t: one string per piece of on-screen text. */
  datatype Table = Table(
    temperature: string,
    humidity: string,
    statusOk: string,
    statusError: string,
    sensorError: string,
    checkWiring: string,
    esp32Airzone: string,
    thermostat: string,
    starting: string,
    setTemp: string,
    currentTemp: string,
    modeCool: string,
    modeHeat: string,
    modeOff: string,
    controlActive: string,
    controlInactive: string,
    modeLabel: string,
    statusLabel: string)

  const TRANSLATIONS_EN: Table := Table(
    "Temperature:", "Humidity:", "Status: OK", "Status: ERROR", "Sensor Error:",
    "Check wiring", "ESP32 Airzone", "Thermostat", "Starting...", "Set Temperature:",
    "Current Temperature:", "Cool", "Heat", "Off", "Control Active", "Control Inactive",
    "Mode:", "Status:")

  /** The Spanish table. Its mode_cool string is kept exactly as the header
      spells it, with the two characters U+221A and U+2260 where "í" was
      meant. */
  const TRANSLATIONS_ES: Table := Table(
    "Temperatura:", "Humedad:", "Estado: OK", "Estado: ERROR", "Error Sensor:",
    "Verificar cableado", "ESP32 Airzone", "Termostato", "Iniciando...",
    "Temperatura Configurada:", "Temperatura Actual:", "Fr\U{221A}\U{2260}o", "Calor",
    "Apagado", "Control Activo", "Control Inactivo", "Modo:", "Estado:")

  /** The switch in get_translations: LANG_SPANISH picks the Spanish table,
      LANG_ENGLISH and every other value the English one. */
  function TableFor(language: Language): (t: Table)
    ensures t == TRANSLATIONS_ES <==> language == LANG_SPANISH
    ensures t == TRANSLATIONS_EN <==> language != LANG_SPANISH
  {
    TablesDiffer();
    if language == LANG_SPANISH then TRANSLATIONS_ES else TRANSLATIONS_EN
  }

  /** The two tables are distinct, so which one is returned is observable. */
  lemma TablesDiffer()
    ensures TRANSLATIONS_EN != TRANSLATIONS_ES
  {
    assert TRANSLATIONS_EN.temperature[10] != TRANSLATIONS_ES.temperature[10];
  }

  /** An out-of-range language value reads as English. */
  lemma OutOfRangeIsEnglish(language: Language)
    requires language != LANG_ENGLISH && language != LANG_SPANISH
    ensures TableFor(language) == TRANSLATIONS_EN
    ensures TableFor(language) == TableFor(LANG_ENGLISH)
  {
  }

  /** The module-level `current_language`. */
  class LanguageSetting {
    var currentLanguage: Language

    /** The static initialiser: English. */
    constructor ()
      ensures GetCurrentLanguage() == LANG_ENGLISH
      ensures GetTranslations() == TRANSLATIONS_EN
    {
      currentLanguage := LANG_ENGLISH;
    }

    /** get_current_language */
    function GetCurrentLanguage(): Language
      reads this
    {
      currentLanguage
    }

    /** set_language: stores any value, the last write wins. */
    method SetLanguage(language: Language)
      modifies this
      ensures GetCurrentLanguage() == language
      ensures GetTranslations() == TableFor(language)
    {
      currentLanguage := language;
    }

    /** get_translations */
    function GetTranslations(): (t: Table)
      reads this
      ensures t == TRANSLATIONS_ES <==> GetCurrentLanguage() == LANG_SPANISH
      ensures t == TRANSLATIONS_EN <==> GetCurrentLanguage() != LANG_SPANISH
    {
      TableFor(currentLanguage)
    }
  }
}
