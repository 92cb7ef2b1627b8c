/** Token validity units of a user pool client: what is sent, and what the service ends up with. */
module TokenUnits {
  import opened Options

  /** The units a configuration declares. */
  datatype ValidityUnits = ValidityUnits(
    accessToken: Option<string>, idToken: Option<string>, refreshToken: Option<string>)

  /** The units a request carries; the empty string omits one. */
  datatype SentUnits = SentUnits(accessToken: string, idToken: string, refreshToken: string)

  datatype ClientTokens = ClientTokens(
    accessTokenValidity: Option<int>, idTokenValidity: Option<int>,
    refreshTokenValidity: Option<int>, authSessionValidity: Option<int>,
    units: Option<ValidityUnits>)
  {
    function AccessUnit(): Option<string> {
      if units.None? then None else units.value.accessToken
    }

    function IdUnit(): Option<string> {
      if units.None? then None else units.value.idToken
    }

    function RefreshUnit(): Option<string> {
      if units.None? then None else units.value.refreshToken
    }
  }

  // ---------- what a request carries ----------

  function ClientValidityUnits(units: Option<ValidityUnits>): Option<SentUnits> {
    if units.None? then None
    else Some(SentUnits(units.value.accessToken.GetOr(""), units.value.idToken.GetOr(""),
                        units.value.refreshToken.GetOr("")))
  }

  predicate HasValidityUnit(units: Option<ValidityUnits>) {
    units.Some? && (units.value.accessToken.Some? || units.value.idToken.Some?
                    || units.value.refreshToken.Some?)
  }

  /** A unit that was declared before and is not any more is sent as its default. */
  ghost function UnitToSend(current: Option<string>, prior: Option<string>, default: string)
    : string
  {
    if current.Some? then current.value else if prior.Some? then default else ""
  }

  ghost function SentOnUpdate(current: ClientTokens, prior: ClientTokens): SentUnits {
    SentUnits(UnitToSend(current.AccessUnit(), prior.AccessUnit(), "hours"),
              UnitToSend(current.IdUnit(), prior.IdUnit(), "hours"),
              UnitToSend(current.RefreshUnit(), prior.RefreshUnit(), "days"))
  }

  method UpdateClientValidityUnits(current: ClientTokens, prior: ClientTokens)
    returns (units: Option<SentUnits>)
    ensures units.GetOr(SentUnits("", "", "")) == SentOnUpdate(current, prior)
    ensures units.None? <==>
              && current.units.None?
              && prior.AccessUnit().None? && prior.IdUnit().None? && prior.RefreshUnit().None?
  {
    units := ClientValidityUnits(current.units);
    if !HasValidityUnit(prior.units) {
      return;
    }
    var sent := units.GetOr(SentUnits("", "", ""));
    if current.AccessUnit().None? {
      if prior.AccessUnit().Some? {
        sent := sent.(accessToken := "hours");
      }
    }
    if current.IdUnit().None? {
      if prior.IdUnit().Some? {
        sent := sent.(idToken := "hours");
      }
    }
    if current.RefreshUnit().None? {
      if prior.RefreshUnit().Some? {
        sent := sent.(refreshToken := "days");
      }
    }
    units := Some(sent);
  }

  // ---------- what the service stores ----------

  /** The unit the service keeps for each token. */
  datatype StoredUnits = StoredUnits(accessToken: string, idToken: string, refreshToken: string)

  ghost predicate CreatesUnit(sent: string, default: string, stored: string) {
    stored == if sent == "" then default else sent
  }

  /** A unit omitted from an update is kept or reset; the service may choose anew each time. */
  ghost predicate UpdatesUnit(sent: string, default: string, stored: string, stored': string) {
    if sent == "" then stored' == stored || stored' == default else stored' == sent
  }

  ghost predicate Created(sent: SentUnits, stored: StoredUnits) {
    && CreatesUnit(sent.accessToken, "hours", stored.accessToken)
    && CreatesUnit(sent.idToken, "hours", stored.idToken)
    && CreatesUnit(sent.refreshToken, "days", stored.refreshToken)
  }

  ghost predicate UpdatedFrom(sent: SentUnits, stored: StoredUnits, stored': StoredUnits) {
    && UpdatesUnit(sent.accessToken, "hours", stored.accessToken, stored'.accessToken)
    && UpdatesUnit(sent.idToken, "hours", stored.idToken, stored'.idToken)
    && UpdatesUnit(sent.refreshToken, "days", stored.refreshToken, stored'.refreshToken)
  }

  /** Every token's stored unit is the declared one, or the documented default. */
  ghost predicate UnitsMatch(stored: StoredUnits, r: ClientTokens) {
    && stored.accessToken == r.AccessUnit().GetOr("hours")
    && stored.idToken == r.IdUnit().GetOr("hours")
    && stored.refreshToken == r.RefreshUnit().GetOr("days")
  }

  /** No declared unit is the empty string; the validation sees to it. */
  predicate UnitsNamed(r: ClientTokens) {
    r.AccessUnit() != Some("") && r.IdUnit() != Some("") && r.RefreshUnit() != Some("")
  }

  /** A create and any number of updates, with what the service stored after each. */
  ghost predicate Run(clients: seq<ClientTokens>, stored: seq<StoredUnits>) {
    && |clients| == |stored| > 0
    && (forall i :: 0 <= i < |clients| ==> UnitsNamed(clients[i]))
    && Created(ClientValidityUnits(clients[0].units).GetOr(SentUnits("", "", "")), stored[0])
    && forall i :: 0 < i < |clients| ==>
         UpdatedFrom(SentOnUpdate(clients[i], clients[i - 1]), stored[i - 1], stored[i])
  }

  lemma {:induction false} UnitsMatchAfterEveryRun(
    clients: seq<ClientTokens>, stored: seq<StoredUnits>)
    requires Run(clients, stored)
    ensures UnitsMatch(stored[|stored| - 1], clients[|clients| - 1])
  {
    var last := |clients| - 1;
    if last > 0 {
      UnitsMatchAfterEveryRun(clients[..last], stored[..last]);
      assert UpdatedFrom(SentOnUpdate(clients[last], clients[last - 1]),
                         stored[last - 1], stored[last]);
    }
    assert UnitsNamed(clients[last]);
  }

  // ---------- validation and lifetimes ----------

  /** 64-bit arithmetic, wrapping around. */
  function Int64(x: int): int {
    (x + 0x8000_0000_0000_0000) % 0x1_0000_0000_0000_0000 - 0x8000_0000_0000_0000
  }

  function TokenUnitSeconds(unit: string): int {
    match unit
    case "seconds" => 1
    case "minutes" => 60
    case "hours" => 3600
    case "days" => 86400
    case _ => 0
  }

  function EffectiveTokenSeconds(
    value: Option<int>, unit: Option<string>, defaultValue: int, defaultUnit: string): int
  {
    match value
    case None => Int64(defaultValue * TokenUnitSeconds(defaultUnit))
    case Some(v) => Int64(v * TokenUnitSeconds(unit.GetOr(defaultUnit)))
  }

  function AccessSeconds(r: ClientTokens): int {
    EffectiveTokenSeconds(r.accessTokenValidity, r.AccessUnit(), 1, "hours")
  }

  function IdSeconds(r: ClientTokens): int {
    EffectiveTokenSeconds(r.idTokenValidity, r.IdUnit(), 1, "hours")
  }

  function RefreshSeconds(r: ClientTokens): int {
    EffectiveTokenSeconds(r.refreshTokenValidity, r.RefreshUnit(), 30, "days")
  }

  // ---------- what the checks are to decide ----------

  ghost predicate Between(value: Option<int>, minimum: int, maximum: int) {
    value.Some? ==> minimum <= value.value <= maximum
  }

  ghost predicate KnownUnit(unit: Option<string>) {
    unit in {None, Some("seconds"), Some("minutes"), Some("hours"), Some("days")}
  }

  /** A lifetime in seconds: an absent one has its default, an absent unit the token's own. */
  ghost function Lifetime(
    value: Option<int>, unit: Option<string>, defaultSeconds: int, defaultUnitSeconds: int): int
  {
    if value.None? then defaultSeconds
    else value.value * match unit
      case None => defaultUnitSeconds
      case Some("seconds") => 1
      case Some("minutes") => 60
      case Some("hours") => 60 * 60
      case Some("days") => 24 * 60 * 60
      case Some(_) => 0
  }

  ghost function AccessLifetime(r: ClientTokens): int {
    Lifetime(r.accessTokenValidity, r.AccessUnit(), 3600, 3600)
  }

  ghost function IdLifetime(r: ClientTokens): int {
    Lifetime(r.idTokenValidity, r.IdUnit(), 3600, 3600)
  }

  ghost function RefreshLifetime(r: ClientTokens): int {
    Lifetime(r.refreshTokenValidity, r.RefreshUnit(), 30 * 86400, 86400)
  }

  ghost predicate ValidUnits(r: ClientTokens) {
    KnownUnit(r.AccessUnit()) && KnownUnit(r.IdUnit()) && KnownUnit(r.RefreshUnit())
  }

  datatype TokenError =
    | AccessValidity | IdValidity | RefreshValidity | SessionValidity | BadUnit
    | AccessTime | IdTime | RefreshTime | AccessOutlives | IdOutlives

  /** What each check refuses. */
  ghost predicate Fails(r: ClientTokens, e: TokenError) {
    match e
    case AccessValidity => !Between(r.accessTokenValidity, 1, 86400)
    case IdValidity => !Between(r.idTokenValidity, 1, 86400)
    case RefreshValidity => !Between(r.refreshTokenValidity, 1, 315360000)
    case SessionValidity => !Between(r.authSessionValidity, 3, 15)
    case BadUnit => !ValidUnits(r)
    case AccessTime => !(300 <= AccessLifetime(r) <= 86400)
    case IdTime => !(300 <= IdLifetime(r) <= 86400)
    case RefreshTime => !(3600 <= RefreshLifetime(r) <= 315360000)
    case AccessOutlives => AccessLifetime(r) > RefreshLifetime(r)
    case IdOutlives => IdLifetime(r) > RefreshLifetime(r)
  }

  /** The order of the checks. */
  ghost function Rank(e: TokenError): nat {
    match e
    case AccessValidity => 0 case IdValidity => 1 case RefreshValidity => 2
    case SessionValidity => 3 case BadUnit => 4 case AccessTime => 5 case IdTime => 6
    case RefreshTime => 7 case AccessOutlives => 8 case IdOutlives => 9
  }

  ghost predicate ValidTokens(r: ClientTokens) {
    forall e :: !Fails(r, e)
  }

  /** Once a value has passed its range check, its seconds fit and do not wrap around. */
  lemma NoOverflow(value: int, unit: string)
    requires 1 <= value <= 315360000
    ensures Int64(value * TokenUnitSeconds(unit)) == value * TokenUnitSeconds(unit)
  {
    var u := TokenUnitSeconds(unit);
    assert 0 <= value * u <= 315360000 * 86400;
  }

  /** Then the 64-bit seconds are the lifetime. */
  lemma SecondsAreLifetime(
    value: Option<int>, unit: Option<string>, default: int, defaultUnit: string)
    requires Between(value, 1, 315360000)
    requires (default, defaultUnit) in {(1, "hours"), (30, "days")}
    ensures EffectiveTokenSeconds(value, unit, default, defaultUnit)
            == if defaultUnit == "hours" then Lifetime(value, unit, 3600, 3600)
               else Lifetime(value, unit, 30 * 86400, 86400)
  {
    NoOverflow(default, defaultUnit);
    if value.Some? { NoOverflow(value.value, unit.GetOr(defaultUnit)); }
  }

  // ---------- the checks ----------

  method ValidateInt32Range(value: Option<int>, minimum: int, maximum: int) returns (ok: bool)
    ensures ok <==> Between(value, minimum, maximum)
  {
    ok := !(value.Some? && (value.value < minimum || value.value > maximum));
  }

  method ValidateUserPoolClientUnits(r: ClientTokens) returns (ok: bool)
    ensures ok <==> ValidUnits(r)
  {
    var fields := [r.AccessUnit(), r.IdUnit(), r.RefreshUnit()];
    for i := 0 to 3
      invariant forall k :: 0 <= k < i ==> KnownUnit(fields[k])
    {
      if fields[i].Some? && fields[i].value !in ["seconds", "minutes", "hours", "days"] {
        return false;
      }
    }
    assert KnownUnit(fields[0]) && KnownUnit(fields[1]) && KnownUnit(fields[2]);
    return true;
  }

  /** The first check that fails is the error; a configuration none refuses is valid. */
  method ValidateUserPoolClientTokens(r: ClientTokens) returns (err: Option<TokenError>)
    ensures err.None? ==> ValidTokens(r)
    ensures err.Some? ==> Fails(r, err.value)
    ensures err.Some? ==> forall e :: Rank(e) < Rank(err.value) ==> !Fails(r, e)
  {
    var ok := ValidateInt32Range(r.accessTokenValidity, 1, 86400);
    if !ok {
      return Some(AccessValidity);
    }
    ok := ValidateInt32Range(r.idTokenValidity, 1, 86400);
    if !ok {
      return Some(IdValidity);
    }
    ok := ValidateInt32Range(r.refreshTokenValidity, 1, 315360000);
    if !ok {
      return Some(RefreshValidity);
    }
    ok := ValidateInt32Range(r.authSessionValidity, 3, 15);
    if !ok {
      return Some(SessionValidity);
    }
    ok := ValidateUserPoolClientUnits(r);
    if !ok {
      return Some(BadUnit);
    }
    err := ValidateLifetimes(r);
  }

  /** The checks on seconds, once the values and units have passed. */
  method ValidateLifetimes(r: ClientTokens) returns (err: Option<TokenError>)
    requires forall e :: Rank(e) < 5 ==> !Fails(r, e)
    ensures err.None? ==> ValidTokens(r)
    ensures err.Some? ==> Fails(r, err.value)
    ensures err.Some? ==> forall e :: Rank(e) < Rank(err.value) ==> !Fails(r, e)
  {
    LifetimesAreSeconds(r);
    var access, id, refresh := AccessSeconds(r), IdSeconds(r), RefreshSeconds(r);
    if access < 300 || access > 86400 {
      return Some(AccessTime);
    }
    if id < 300 || id > 86400 {
      return Some(IdTime);
    }
    if refresh < 3600 || refresh > 315360000 {
      return Some(RefreshTime);
    }
    if access > refresh {
      return Some(AccessOutlives);
    }
    if id > refresh {
      return Some(IdOutlives);
    }
    return None;
  }

  lemma LifetimesAreSeconds(r: ClientTokens)
    requires forall e :: Rank(e) < 5 ==> !Fails(r, e)
    ensures AccessSeconds(r) == AccessLifetime(r)
    ensures IdSeconds(r) == IdLifetime(r)
    ensures RefreshSeconds(r) == RefreshLifetime(r)
  {
    assert !Fails(r, AccessValidity) && !Fails(r, IdValidity) && !Fails(r, RefreshValidity);
    SecondsAreLifetime(r.accessTokenValidity, r.AccessUnit(), 1, "hours");
    SecondsAreLifetime(r.idTokenValidity, r.IdUnit(), 1, "hours");
    SecondsAreLifetime(r.refreshTokenValidity, r.RefreshUnit(), 30, "days");
  }

  // ---------- lifetimes at the service ----------

  /** The lifetimes the service keeps, without their units; none is the service's own default. */
  datatype StoredValues = StoredValues(
    accessToken: Option<int>, idToken: Option<int>, refreshToken: Option<int>)

  /** A lifetime omitted from an update goes back to the default, or stays if the service keeps it. */
  ghost predicate UpdatesValue(keeps: bool, sent: Option<int>, stored: Option<int>, stored': Option<int>) {
    stored' == if sent.None? && keeps then stored else sent
  }

  ghost predicate ValueRun(keeps: bool, clients: seq<ClientTokens>, values: seq<StoredValues>) {
    && |clients| == |values| > 0
    && values[0] == StoredValues(clients[0].accessTokenValidity, clients[0].idTokenValidity,
                                 clients[0].refreshTokenValidity)
    && forall i :: 0 < i < |clients| ==> UpdatesValues(keeps, clients[i], values[i - 1], values[i])
  }

  ghost predicate UpdatesValues(
    keeps: bool, sent: ClientTokens, stored: StoredValues, stored': StoredValues)
  {
    && UpdatesValue(keeps, sent.accessTokenValidity, stored.accessToken, stored'.accessToken)
    && UpdatesValue(keeps, sent.idTokenValidity, stored.idToken, stored'.idToken)
    && UpdatesValue(keeps, sent.refreshTokenValidity, stored.refreshToken, stored'.refreshToken)
  }

  /** The stored lifetimes are the declared ones, and none where a service that resets has none. */
  lemma {:induction false} ValuesAfterEveryRun(
    keeps: bool, clients: seq<ClientTokens>, values: seq<StoredValues>)
    requires ValueRun(keeps, clients, values)
    ensures var r, v := clients[|clients| - 1], values[|values| - 1];
            && (!keeps || r.accessTokenValidity.Some? ==> v.accessToken == r.accessTokenValidity)
            && (!keeps || r.idTokenValidity.Some? ==> v.idToken == r.idTokenValidity)
            && (!keeps || r.refreshTokenValidity.Some? ==> v.refreshToken == r.refreshTokenValidity)
  {
    var last := |clients| - 1;
    if last > 0 { assert UpdatesValues(keeps, clients[last], values[last - 1], values[last]); }
  }

  /** How long the service lets a token live: by its unit, or by default one hour or thirty days. */
  ghost function StoredSeconds(value: Option<int>, unit: string, default: int): int {
    Lifetime(value, Some(unit), default, 0)
  }

  /**
   * After every run each lifetime means at the service what the validation took it to mean, and
   * access and id tokens do not outlive refresh tokens. At a service that resets an omitted
   * lifetime this holds of every lifetime, otherwise of those that are declared.
   */
  lemma {:induction false} LifetimesAfterEveryRun(
    keeps: bool, clients: seq<ClientTokens>, stored: seq<StoredUnits>, values: seq<StoredValues>)
    requires Run(clients, stored) && ValueRun(keeps, clients, values)
    requires ValidTokens(clients[|clients| - 1])
    ensures var r, s, v := clients[|clients| - 1], stored[|stored| - 1], values[|values| - 1];
            var access := StoredSeconds(v.accessToken, s.accessToken, 3600);
            var id := StoredSeconds(v.idToken, s.idToken, 3600);
            var refresh := StoredSeconds(v.refreshToken, s.refreshToken, 30 * 86400);
            && (!keeps || r.accessTokenValidity.Some? ==>
                  access == AccessLifetime(r) == AccessSeconds(r))
            && (!keeps || r.idTokenValidity.Some? ==> id == IdLifetime(r) == IdSeconds(r))
            && (!keeps || r.refreshTokenValidity.Some? ==>
                  refresh == RefreshLifetime(r) == RefreshSeconds(r))
            && (!keeps || (r.accessTokenValidity.Some? && r.refreshTokenValidity.Some?) ==>
                  access <= refresh)
            && (!keeps || (r.idTokenValidity.Some? && r.refreshTokenValidity.Some?) ==>
                  id <= refresh)
  {
    UnitsMatchAfterEveryRun(clients, stored);
    ValuesAfterEveryRun(keeps, clients, values);
    var r := clients[|clients| - 1];
    LifetimesAreSeconds(r);
    assert !Fails(r, AccessOutlives) && !Fails(r, IdOutlives);
  }
}
