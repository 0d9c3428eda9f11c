/** The configuration editor's field-change handler: a shallow copy of the
    configuration with one field replaced, announced in one event. */
module Editor {
  import opened Card

  /** The `config-changed` event; it bubbles and crosses the shadow root. */
  datatype Event = ConfigChanged(config: Config)

  /** The form's fields, in the order the editor shows them. */
  const FieldIds := [TitleKey, ThemeKey, YearlyTargetKey, CurrentReadingKey, BalanceKey,
                     YearlyVolumeKey, YearlyAmountKey, MonthlyVolumeKey, MonthlyAmountKey,
                     UnpaidAmountKey, UnitPriceKey, HistoryDataKey]

  datatype Change = Change(config: Config, events: seq<Event>)

  /** The `change` listener for the field `id` taking the value `value`. */
  function OnFieldChange(cfg: Config, id: string, value: string): (ch: Change)
    ensures id in ch.config && ch.config[id] == value
    ensures forall k :: k != id ==> (k in ch.config <==> k in cfg)
    ensures forall k :: k != id && k in cfg ==> ch.config[k] == cfg[k]
    ensures ch.events == [ConfigChanged(ch.config)]
  {
    var updated := cfg[id := value];
    Change(updated, [ConfigChanged(updated)])
  }

  /** The editor shows a field for every key of the stub configuration. */
  lemma StubConfigFieldsEditable()
    ensures forall k :: k in StubConfig() ==> k in FieldIds
    ensures forall i :: 0 <= i < |FieldIds| ==> FieldIds[i] in StubConfig()
  {
  }

  /** Re-entering a field's current value changes nothing. */
  lemma SameValueKeepsConfig(cfg: Config, id: string)
    requires id in cfg
    ensures OnFieldChange(cfg, id, cfg[id]).config == cfg
  {
  }

  /** Of two edits to one field, the later wins. */
  lemma LaterEditWins(cfg: Config, id: string, first: string, second: string)
    ensures OnFieldChange(OnFieldChange(cfg, id, first).config, id, second).config
         == OnFieldChange(cfg, id, second).config
  {
  }

  /** Edits to different fields commute. */
  lemma EditsCommute(cfg: Config, a: string, x: string, b: string, y: string)
    requires a != b
    ensures OnFieldChange(OnFieldChange(cfg, a, x).config, b, y).config
         == OnFieldChange(OnFieldChange(cfg, b, y).config, a, x).config
  {
  }

  /** An edit keeps a valid configuration valid unless it touches one of the
      two volume fields; clearing both makes the card reject it. */
  lemma EditKeepsValidity(cfg: Config, id: string, value: string)
    requires ValidConfig(cfg)
    ensures id != YearlyVolumeKey && id != MonthlyVolumeKey ==> ValidConfig(OnFieldChange(cfg, id, value).config)
    ensures value != "" && (id == YearlyVolumeKey || id == MonthlyVolumeKey) ==>
      ValidConfig(OnFieldChange(cfg, id, value).config)
  {
  }

  lemma ClearingBothVolumesInvalidates(cfg: Config)
    ensures var c1 := OnFieldChange(cfg, YearlyVolumeKey, "").config;
      !ValidConfig(OnFieldChange(c1, MonthlyVolumeKey, "").config)
  {
  }
}
