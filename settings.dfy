/**
 * The accessibility settings page: an eight-field record with defaults, kept
 * in the browser's local storage under one key, loaded when the page mounts,
 * saved on request, removed by "Reset to Defaults", and applied to the root
 * element of the document (its font size, a high-contrast class and a theme
 * attribute).
 */
module AccessibilitySettings {
  import opened Options
  import opened Text

  /** The saved record. `fontSize` and `speechRate` are percentages; the
      sliders offer 75..200 and 50..200, but nothing checks a loaded value. */
  datatype Settings = Settings(
    highContrast: bool,
    textToSpeech: bool,
    speechRecognition: bool,
    gestureRecognition: bool,
    fontSize: int,
    speechRate: int,
    theme: string,
    language: string)

  /** The values the page starts with. */
  const Defaults := Settings(false, true, true, true, 100, 100, "system", "en-US")

  /** The one local-storage key the page uses. */
  const StorageKey := "assistPlusSettings"

  const HighContrastClass := "high-contrast"
  const ThemeAttribute := "data-theme"
  const SavedSpeech := "Settings updated successfully."

  // ---------------------------------------------------------------------
  // Local storage
  // ---------------------------------------------------------------------

  /** `window.localStorage`, with each stored JSON text standing for the
      record it encodes. */
  class LocalStorage {
    var items: map<string, Settings>

    constructor (items: map<string, Settings>)
      ensures this.items == items
    {
      this.items := items;
    }

    /** `getItem`: the stored record, or nothing when the key is absent. */
    method GetItem(key: string) returns (r: Option<Settings>)
      ensures r.Some? <==> key in items
      ensures r.Some? ==> r.value == items[key]
    {
      if key in items {
        r := Some(items[key]);
      } else {
        r := None;
      }
    }

    /** `setItem`: `key` now holds `value`; every other key keeps its entry. */
    method SetItem(key: string, value: Settings)
      modifies this
      ensures items == old(items)[key := value]
    {
      items := items[key := value];
    }

    /** `removeItem`: `key` is gone; every other key keeps its entry. */
    method RemoveItem(key: string)
      modifies this
      ensures items == old(items) - {key}
    {
      items := items - {key};
    }
  }

  /** What the mount-time load leaves in the page's fields: the stored record
      when the key is present, otherwise the fields as they were. */
  function Loaded(items: map<string, Settings>, current: Settings): Settings
  {
    if StorageKey in items then items[StorageKey] else current
  }

  /** A record saved under the key is exactly what the next load restores,
      whatever the fields held before. */
  lemma SaveThenLoadRestores(items: map<string, Settings>, saved: Settings, current: Settings)
    ensures Loaded(items[StorageKey := saved], current) == saved
  {
  }

  /** Once the key is removed, a load keeps the fields it finds. */
  lemma RemoveThenLoadKeeps(items: map<string, Settings>, current: Settings)
    ensures Loaded(items - {StorageKey}, current) == current
  {
  }

  // ---------------------------------------------------------------------
  // The root element
  // ---------------------------------------------------------------------

  /** The parts of `document.documentElement` the page writes: the inline
      font size, the class list and the other attributes. */
  datatype RootState = RootState(fontSize: string, classes: set<string>, attributes: map<string, string>)

  const ClassAttribute := "class"
  const StyleAttribute := "style"

  /** `attributes` holds the attributes other than `class` and `style`; those
      two are what `classes` and `fontSize` stand for. */
  predicate WellFormed(root: RootState)
  {
    ClassAttribute !in root.attributes && StyleAttribute !in root.attributes
  }

  /** The inline font size written for a percentage: the number in decimal
      followed by `%`. The number can be read back from it. */
  function FontSizeStyle(percent: int): (r: string)
    ensures 2 <= |r| && r[|r| - 1] == '%'
    ensures IsIntNumeral(r[..|r| - 1]) && ParseInt(r[..|r| - 1]) == percent
  {
    var digits := IntToString(percent);
    IntRoundTrip(percent);
    assert (digits + "%")[..|digits|] == digits;
    digits + "%"
  }

  /** Distinct percentages give distinct font-size strings. */
  lemma FontSizeStyleInjective(a: int, b: int)
    requires FontSizeStyle(a) == FontSizeStyle(b)
    ensures a == b
  {
  }

  /** The root state after `applySettings(s)`: the font size string (a
      negative percentage is not a valid CSS font size, so assigning it leaves
      the inline size as it was), the high-contrast class present exactly
      when `s.highContrast`, every other class as it was, and `data-theme` set
      to the theme with every attribute other than `data-theme`, `class` and
      `style` as it was. */
  function Applied(root: RootState, s: Settings): (r: RootState)
    requires WellFormed(root)
    ensures WellFormed(r)
    ensures 0 <= s.fontSize ==> r.fontSize == FontSizeStyle(s.fontSize)
    ensures s.fontSize < 0 ==> r.fontSize == root.fontSize
    ensures HighContrastClass in r.classes <==> s.highContrast
    ensures forall c :: c != HighContrastClass ==> (c in r.classes <==> c in root.classes)
    ensures ThemeAttribute in r.attributes && r.attributes[ThemeAttribute] == s.theme
    ensures forall a :: a != ThemeAttribute ==> (a in r.attributes <==> a in root.attributes)
    ensures forall a :: a != ThemeAttribute && a in root.attributes ==> r.attributes[a] == root.attributes[a]
  {
    RootState(
      if s.fontSize < 0 then root.fontSize else FontSizeStyle(s.fontSize),
      if s.highContrast then root.classes + {HighContrastClass} else root.classes - {HighContrastClass},
      root.attributes[ThemeAttribute := s.theme])
  }

  /** Applying the same settings a second time changes nothing. */
  lemma ApplyIdempotent(root: RootState, s: Settings)
    requires WellFormed(root)
    ensures Applied(Applied(root, s), s) == Applied(root, s)
  {
  }

  /** Every field `applySettings` writes is overwritten by the next call, so
      only the last settings applied matter; the one exception is a negative
      font size in the last settings, which keeps the size the first call
      wrote. */
  lemma LastApplyWins(root: RootState, first: Settings, second: Settings)
    requires WellFormed(root)
    ensures 0 <= second.fontSize ==> Applied(Applied(root, first), second) == Applied(root, second)
    ensures Applied(Applied(root, first), second) == Applied(root.(fontSize := Applied(root, first).fontSize), second)
  {
  }

  /** A stored negative font size does not reach the page: applying it keeps
      the inline size set before, here "150%". */
  lemma NegativeFontSizeIgnored(root: RootState, first: Settings, second: Settings)
    requires WellFormed(root)
    requires first.fontSize == 150 && second.fontSize == -10
    ensures Applied(Applied(root, first), second).fontSize == FontSizeStyle(150)
  {
  }

  /** `document.documentElement`. */
  class RootElement {
    var fontSize: string
    var classes: set<string>
    var attributes: map<string, string>

    constructor (initial: RootState)
      requires WellFormed(initial)
      ensures State() == initial && Valid()
    {
      fontSize, classes, attributes := initial.fontSize, initial.classes, initial.attributes;
    }

    function State(): RootState
      reads this
    {
      RootState(fontSize, classes, attributes)
    }

    ghost predicate Valid()
      reads this
    {
      WellFormed(State())
    }

    /** `applySettings`: font size, then the class, then the theme attribute. */
    method ApplySettings(s: Settings)
      requires Valid()
      modifies this
      ensures Valid() && State() == Applied(old(State()), s)
    {
      if 0 <= s.fontSize {
        // The style declaration drops an assignment that is not valid CSS.
        fontSize := FontSizeStyle(s.fontSize);
      }
      if s.highContrast {
        classes := classes + {HighContrastClass};
      } else {
        classes := classes - {HighContrastClass};
      }
      attributes := attributes[ThemeAttribute := s.theme];
    }
  }

  // ---------------------------------------------------------------------
  // The page
  // ---------------------------------------------------------------------

  /** The settings page: its eight state fields, the storage and root
      element it works on, and the confirmations it has spoken. */
  class SettingsPage {
    var highContrast: bool
    var textToSpeech: bool
    var speechRecognition: bool
    var gestureRecognition: bool
    var fontSizeValue: int
    var speechRate: int
    var theme: string
    var language: string
    var spoken: seq<string>
    const storage: LocalStorage
    const root: RootElement
    /** Whether the browser offers `window.speechSynthesis`. */
    const hasSynthesis: bool

    /** The record the fields make up, as `handleSave` assembles it. */
    function Current(): Settings
      reads this
    {
      Settings(highContrast, textToSpeech, speechRecognition, gestureRecognition,
               fontSizeValue, speechRate, theme, language)
    }

    /** A freshly rendered page holds the defaults and has said nothing. */
    constructor (storage: LocalStorage, root: RootElement, hasSynthesis: bool)
      ensures this.storage == storage && this.root == root && this.hasSynthesis == hasSynthesis
      ensures Current() == Defaults && spoken == []
    {
      this.storage, this.root, this.hasSynthesis := storage, root, hasSynthesis;
      highContrast, textToSpeech, speechRecognition, gestureRecognition := false, true, true, true;
      fontSizeValue, speechRate, theme, language := 100, 100, "system", "en-US";
      spoken := [];
    }

    /** The mount-time effect: when the key is present, every field is set
        from the stored record and the record is applied to the root element;
        otherwise nothing changes. Storage is only read. */
    method Load()
      requires root.Valid()
      modifies this, root
      ensures root.Valid()
      ensures Current() == Loaded(storage.items, old(Current()))
      ensures StorageKey in storage.items ==> root.State() == Applied(old(root.State()), Current())
      ensures StorageKey !in storage.items ==> root.State() == old(root.State())
      ensures spoken == old(spoken)
    {
      var saved := storage.GetItem(StorageKey);
      if saved.Some? {
        var settings := saved.value;
        SetFields(settings);
        root.ApplySettings(settings);
      }
    }

    /** The eight state setters the load calls, one per field of `s`. */
    method SetFields(s: Settings)
      modifies this
      ensures Current() == s && spoken == old(spoken)
    {
      highContrast, textToSpeech := s.highContrast, s.textToSpeech;
      speechRecognition, gestureRecognition := s.speechRecognition, s.gestureRecognition;
      fontSizeValue, speechRate := s.fontSize, s.speechRate;
      theme, language := s.theme, s.language;
    }

    /** `handleSave`: the current record is written under the one key (every
        other key untouched), applied to the root element, and the
        confirmation is spoken only when text-to-speech is on and the browser
        has speech synthesis (without it the handler throws once storage and
        the root element are written, so nothing is spoken). The fields stay
        as they are. */
    method Save()
      requires root.Valid()
      modifies this, storage, root
      ensures root.Valid()
      ensures Current() == old(Current())
      ensures storage.items == old(storage.items)[StorageKey := Current()]
      ensures root.State() == Applied(old(root.State()), Current())
      ensures spoken == old(spoken) + (if textToSpeech && hasSynthesis then [SavedSpeech] else [])
    {
      var settings := Current();
      storage.SetItem(StorageKey, settings);
      root.ApplySettings(settings);
      if textToSpeech && hasSynthesis {
        spoken := spoken + [SavedSpeech];
      }
    }

    /** The "Reset to Defaults" button's removal of the key; the reload that
        follows it is `ResetThenReload`. */
    method Reset()
      modifies storage
      ensures storage.items == old(storage.items) - {StorageKey}
    {
      storage.RemoveItem(StorageKey);
    }
  }

  /** Saving, then opening the page afresh on the same storage, shows exactly
      the eight values that were saved, and the root element shows them too. */
  method SaveThenReload(page: SettingsPage) returns (reloaded: SettingsPage)
    requires page.root.Valid()
    modifies page, page.storage, page.root
    ensures reloaded.Current() == old(page.Current())
    ensures reloaded.root.State() == Applied(old(page.root.State()), old(page.Current()))
  {
    page.Save();
    reloaded := new SettingsPage(page.storage, page.root, page.hasSynthesis);
    reloaded.Load();
    ApplyIdempotent(old(page.root.State()), page.Current());
  }

  /** "Reset to Defaults": the key is removed and the page reloads, so the
      reloaded page holds the defaults whatever was saved before, and the other
      storage keys are untouched. */
  method ResetThenReload(page: SettingsPage) returns (reloaded: SettingsPage)
    requires page.root.Valid()
    modifies page.storage, page.root
    ensures reloaded.Current() == Defaults
    ensures page.storage.items == old(page.storage.items) - {StorageKey}
  {
    page.Reset();
    reloaded := new SettingsPage(page.storage, page.root, page.hasSynthesis);
    reloaded.Load();
  }
}
