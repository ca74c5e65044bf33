/** The branding hook: two fixed header configurations (logo and company
    name), the one chosen (Redesco at start) and the list offered to the
    user. */
module HeaderSelection {

  datatype HeaderType = Redesco | Maestrale

  datatype HeaderConfig = HeaderConfig(kind: HeaderType, logoPath: string, companyName: string)

  /** `headerConfigs[h]`: each configuration is stored under its own type. */
  function Config(h: HeaderType): (c: HeaderConfig)
    ensures c.kind == h
    ensures c.logoPath != [] && c.companyName != []
  {
    match h
    case Redesco => HeaderConfig(Redesco, "logo.png", "Redesco Progetti srl")
    case Maestrale => HeaderConfig(Maestrale, "logo_mae.png", "Maestrale Srl")
  }

  /** The two configurations differ in every field. */
  lemma ConfigsDistinct()
    ensures Config(Redesco).logoPath != Config(Maestrale).logoPath
    ensures Config(Redesco).companyName != Config(Maestrale).companyName
  {
    assert Config(Redesco).logoPath[5] != Config(Maestrale).logoPath[5];
    assert Config(Redesco).companyName[0] != Config(Maestrale).companyName[0];
  }

  /** The hook's state: the header type chosen. */
  datatype HeaderState = HeaderState(headerType: HeaderType)

  /** `useState<HeaderType>('redesco')`. */
  const Initial: HeaderState := HeaderState(Redesco)

  /** `changeHeader(h)` replaces the header type. */
  function ChangeHeader(s: HeaderState, h: HeaderType): (r: HeaderState)
    ensures r.headerType == h
  {
    HeaderState(h)
  }

  /** `getCurrentHeader()`: the configuration of the chosen type. */
  function GetCurrentHeader(s: HeaderState): (c: HeaderConfig)
    ensures c.kind == s.headerType
  {
    Config(s.headerType)
  }

  /** `Object.values(headerConfigs)`, in declaration order. */
  const AvailableHeaders: seq<HeaderConfig> := [Config(Redesco), Config(Maestrale)]

  /** Exactly the two configurations are offered, one per type, and whatever
      is chosen is among them. */
  lemma AvailableHeadersSpec(s: HeaderState)
    ensures |AvailableHeaders| == 2
    ensures forall h :: Config(h) in AvailableHeaders
    ensures forall i :: 0 <= i < |AvailableHeaders| ==> AvailableHeaders[i] == Config(AvailableHeaders[i].kind)
    ensures GetCurrentHeader(s) in AvailableHeaders
    ensures AvailableHeaders[0].kind != AvailableHeaders[1].kind
  {
    forall h ensures Config(h) in AvailableHeaders {
      match h
      case Redesco => assert AvailableHeaders[0] == Config(h);
      case Maestrale => assert AvailableHeaders[1] == Config(h);
    }
  }

  /** At start the Redesco branding is shown; after `changeHeader` the new one is. */
  lemma InitialRedesco(h: HeaderType)
    ensures GetCurrentHeader(Initial).companyName == "Redesco Progetti srl"
    ensures GetCurrentHeader(ChangeHeader(Initial, h)) == Config(h)
  {
  }
}
