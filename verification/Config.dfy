/** The configuration: endpoint names, chain names, limits, and the validation
    every run relies on. */
module Config {
  import opened Text
  import opened Address
  import opened Ordered

  datatype Resolver = Resolver(
    servers: seq<Addr>, serverName: string, port: nat, timeoutSecs: nat,
    attempts: nat, deadlineSecs: nat, requireAuthenticated: bool)

  datatype Firewall = Firewall(production: string, maintenance: string, port: nat, maxAddresses: nat)

  datatype Endpoint = Endpoint(name: string, required: bool)

  datatype StaticHost = StaticHost(ip: Addr, names: seq<string>)

  datatype Config = Config(
    resolver: Resolver, firewall: Firewall, endpoints: seq<Endpoint>, staticHosts: seq<StaticHost>)

  datatype ConfigError =
    | NoServers | NoServerName | NoAttempts | NoTimeout | NoDeadline | NoEndpoints
    | SameChains | BadChain(chain: string) | NoAddresses
    | BadEndpoint(name: string) | DuplicateEndpoint(name: string)
    | CommentTooLong(bytes: nat) | EmptyStaticHost(ip: Addr) | BadStaticName(name: string)

  /** Room for a rule comment, without its terminator. */
  const MAX_COMMENT_LEN := 255

  function Lower(c: char): char {
    if 'A' <= c <= 'Z' then (c as int + 32) as char else c
  }

  function LowerAll(s: string): (r: string)
    ensures |r| == |s|
  {
    seq(|s|, i requires 0 <= i < |s| => Lower(s[i]))
  }

  function TrimDots(s: string): string {
    if s != "" && s[|s| - 1] == '.' then TrimDots(s[..|s| - 1]) else s
  }

  function NormalizeName(name: string): string {
    LowerAll(TrimDots(Trim(name)))
  }

  predicate IsAlphanumeric(c: char) {
    'a' <= c <= 'z' || 'A' <= c <= 'Z' || '0' <= c <= '9'
  }

  predicate IsLabel(part: string) {
    && part != ""
    && |part| <= 63
    && part[0] != '-'
    && part[|part| - 1] != '-'
    && forall c | c in part :: IsAlphanumeric(c) || c == '-'
  }

  predicate IsHostname(name: string) {
    name != "" && |name| <= 253 && forall part | part in SplitOn(name, '.') :: IsLabel(part)
  }

  predicate IsChainName(name: string) {
    name != "" && |name| <= 28 && forall c | c in name :: IsAlphanumeric(c) || c == '_' || c == '-'
  }

  function EndpointNames(cfg: Config): (names: seq<string>)
    ensures |names| == |cfg.endpoints|
  {
    seq(|cfg.endpoints|, i requires 0 <= i < |cfg.endpoints| => NormalizeName(cfg.endpoints[i].name))
  }

  function NameSet(names: seq<string>): set<string> {
    set name | name in names
  }

  // ---- length of a joined comment ----

  function TotalLength(names: seq<string>): nat {
    if names == [] then 0 else TotalLength(names[..|names| - 1]) + |names[|names| - 1]|
  }

  /** Length of the names of a set joined by single spaces. */
  function JoinedLength(names: set<string>): nat {
    TotalLength(SortedNames(names)) + (if |names| == 0 then 0 else |names| - 1)
  }

  // ---- what a valid configuration guarantees ----

  ghost predicate ValidStatic(h: StaticHost) {
    h.names != [] && forall name | name in h.names :: IsHostname(NormalizeName(name))
  }

  ghost predicate ValidSettings(cfg: Config) {
    && cfg.resolver.servers != [] && cfg.resolver.serverName != "" && cfg.resolver.attempts > 0
    && cfg.resolver.timeoutSecs > 0 && cfg.resolver.deadlineSecs > 0
    && cfg.endpoints != []
    && cfg.firewall.production != cfg.firewall.maintenance
    && IsChainName(cfg.firewall.production) && IsChainName(cfg.firewall.maintenance)
    && cfg.firewall.maxAddresses > 0
  }

  ghost predicate ValidNames(names: seq<string>) {
    && (forall name | name in names :: IsHostname(name))
    && (forall i, j | 0 <= i < j < |names| :: names[i] != names[j])
    && JoinedLength(NameSet(names)) <= MAX_COMMENT_LEN
  }

  ghost predicate Valid(cfg: Config) {
    && ValidSettings(cfg)
    && ValidNames(EndpointNames(cfg))
    && forall h | h in cfg.staticHosts :: ValidStatic(h)
  }

  /** The error names a fault that the configuration has. */
  ghost predicate Explains(cfg: Config, error: ConfigError) {
    match error
    case NoServers => |cfg.resolver.servers| < 1
    case NoServerName => |cfg.resolver.serverName| < 1
    case NoAttempts => cfg.resolver.attempts < 1
    case NoTimeout => cfg.resolver.timeoutSecs < 1
    case NoDeadline => cfg.resolver.deadlineSecs < 1
    case NoEndpoints => |cfg.endpoints| < 1
    case SameChains => cfg.firewall.production == cfg.firewall.maintenance
    case BadChain(chain) =>
      (chain == cfg.firewall.production || chain == cfg.firewall.maintenance) && Misnames(chain)
    case NoAddresses => cfg.firewall.maxAddresses < 1
    case BadEndpoint(name) => IsEndpoint(cfg, name) && !IsHostname(NormalizeName(name))
    case DuplicateEndpoint(name) => exists i, j :: 0 <= i < j < |cfg.endpoints| && SameEndpoint(cfg, i, j, name)
    case CommentTooLong(bytes) => JoinedLength(NameSet(EndpointNames(cfg))) == bytes > 255
    case EmptyStaticHost(ip) => exists h :: h in cfg.staticHosts && h.ip == ip && h.names == []
    case BadStaticName(name) => !IsHostname(NormalizeName(name)) && exists h :: h in cfg.staticHosts && name in h.names
  }

  /** ASCII letters and digits, by code. */
  ghost predicate LetterOrDigit(c: char) {
    var n := c as int;
    48 <= n <= 57 || 65 <= n <= 90 || 97 <= n <= 122
  }

  /** Empty, longer than 28 characters, or with a character that is no letter, digit,
      underscore or hyphen. */
  ghost predicate Misnames(chain: string) {
    || |chain| < 1 || |chain| > 28
    || exists i :: 0 <= i < |chain| && !LetterOrDigit(chain[i]) && chain[i] != '_' && chain[i] != '-'
  }

  lemma MisnamesExactly(chain: string)
    ensures Misnames(chain) <==> !IsChainName(chain)
  {
    if IsChainName(chain) {
      forall i | 0 <= i < |chain| ensures LetterOrDigit(chain[i]) || chain[i] == '_' || chain[i] == '-' {
        assert chain[i] in chain;
      }
    }
  }

  ghost predicate IsEndpoint(cfg: Config, name: string) {
    exists i :: 0 <= i < |cfg.endpoints| && cfg.endpoints[i].name == name
  }

  /** Two endpoints with one normalized name, the later written as `name`. */
  ghost predicate SameEndpoint(cfg: Config, i: nat, j: nat, name: string)
    requires i < |cfg.endpoints| && j < |cfg.endpoints|
  {
    cfg.endpoints[j].name == name && NormalizeName(cfg.endpoints[i].name) == NormalizeName(name)
  }

  /** A configuration is valid exactly if it has no fault. */
  lemma ValidExactly(cfg: Config)
    ensures Valid(cfg) <==> forall error :: !Explains(cfg, error)
  {
    if Valid(cfg) {
      forall error ensures !Explains(cfg, error) {
        ValidHasNoFault(cfg, error);
      }
    } else {
      var error := FaultOf(cfg);
    }
  }

  lemma ValidHasNoFault(cfg: Config, error: ConfigError)
    requires Valid(cfg)
    ensures !Explains(cfg, error)
  {
    match error
    case BadEndpoint(name) =>
      forall i | 0 <= i < |cfg.endpoints| ensures IsHostname(NormalizeName(cfg.endpoints[i].name)) {
        assert EndpointNames(cfg)[i] in EndpointNames(cfg);
      }
    case DuplicateEndpoint(name) =>
      forall i, j | 0 <= i < j < |cfg.endpoints| ensures !SameEndpoint(cfg, i, j, name) {
        assert EndpointNames(cfg)[i] != EndpointNames(cfg)[j];
      }
    case BadChain(chain) => MisnamesExactly(chain);
    case _ =>
  }

  lemma FaultOf(cfg: Config) returns (error: ConfigError)
    requires !Valid(cfg)
    ensures Explains(cfg, error)
  {
    if !ValidSettings(cfg) {
      error := SettingsFault(cfg);
    } else if !ValidNames(EndpointNames(cfg)) {
      error := NamesFault(cfg);
    } else {
      var h :| h in cfg.staticHosts && !ValidStatic(h);
      if h.names == [] {
        error := EmptyStaticHost(h.ip);
      } else {
        var name :| name in h.names && !IsHostname(NormalizeName(name));
        error := BadStaticName(name);
      }
    }
  }

  lemma SettingsFault(cfg: Config) returns (error: ConfigError)
    requires !ValidSettings(cfg)
    ensures Explains(cfg, error)
  {
    MisnamesExactly(cfg.firewall.production);
    MisnamesExactly(cfg.firewall.maintenance);
    error :=
      if cfg.resolver.servers == [] then NoServers
      else if cfg.resolver.serverName == "" then NoServerName
      else if cfg.resolver.attempts == 0 then NoAttempts
      else if cfg.resolver.timeoutSecs == 0 then NoTimeout
      else if cfg.resolver.deadlineSecs == 0 then NoDeadline
      else if cfg.endpoints == [] then NoEndpoints
      else if cfg.firewall.production == cfg.firewall.maintenance then SameChains
      else if !IsChainName(cfg.firewall.production) then BadChain(cfg.firewall.production)
      else if !IsChainName(cfg.firewall.maintenance) then BadChain(cfg.firewall.maintenance)
      else NoAddresses;
  }

  lemma NamesFault(cfg: Config) returns (error: ConfigError)
    requires !ValidNames(EndpointNames(cfg))
    ensures Explains(cfg, error)
  {
    var names := EndpointNames(cfg);
    if i :| 0 <= i < |names| && !IsHostname(names[i]) {
      error := BadEndpoint(cfg.endpoints[i].name);
    } else if i, j :| 0 <= i < j < |names| && names[i] == names[j] {
      error := DuplicateEndpoint(cfg.endpoints[j].name);
      assert SameEndpoint(cfg, i, j, cfg.endpoints[j].name);
    } else {
      error := CommentTooLong(JoinedLength(NameSet(names)));
    }
  }

  /** Accepts exactly the valid configurations, and reports a fault of any other. */
  method Validate(cfg: Config) returns (error: Option<ConfigError>)
    ensures error.None? <==> Valid(cfg)
    ensures error.Some? ==> Explains(cfg, error.value)
  {
    error := CheckSettings(cfg);
    if error.None? {
      error := CheckEndpoints(cfg);
      if error.None? {
        error := CheckStatics(cfg);
      }
    }
  }

  method CheckSettings(cfg: Config) returns (error: Option<ConfigError>)
    ensures error.None? <==> ValidSettings(cfg)
    ensures error.Some? ==> Explains(cfg, error.value)
  {
    if cfg.resolver.servers == [] { return Some(NoServers); }
    if cfg.resolver.serverName == "" { return Some(NoServerName); }
    if cfg.resolver.attempts == 0 { return Some(NoAttempts); }
    if cfg.resolver.timeoutSecs == 0 { return Some(NoTimeout); }
    if cfg.resolver.deadlineSecs == 0 { return Some(NoDeadline); }
    if cfg.endpoints == [] { return Some(NoEndpoints); }
    if cfg.firewall.production == cfg.firewall.maintenance { return Some(SameChains); }
    MisnamesExactly(cfg.firewall.production);
    MisnamesExactly(cfg.firewall.maintenance);
    if !IsChainName(cfg.firewall.production) { return Some(BadChain(cfg.firewall.production)); }
    if !IsChainName(cfg.firewall.maintenance) { return Some(BadChain(cfg.firewall.maintenance)); }
    if cfg.firewall.maxAddresses == 0 { return Some(NoAddresses); }
    return None;
  }

  /** The first `i` names are hostnames, pairwise different, and these are they. */
  ghost predicate SeenSoFar(names: seq<string>, i: nat, seen: set<string>) {
    && i <= |names|
    && (forall j | 0 <= j < i :: IsHostname(names[j]) && names[j] in seen)
    && (forall name | name in seen :: exists j :: 0 <= j < i && names[j] == name)
    && (forall j, k | 0 <= j < k < i :: names[j] != names[k])
  }

  lemma SeenNext(names: seq<string>, i: nat, seen: set<string>)
    requires SeenSoFar(names, i, seen) && i < |names| && IsHostname(names[i]) && names[i] !in seen
    ensures SeenSoFar(names, i + 1, seen + {names[i]})
  {}

  lemma SeenTwice(cfg: Config, i: nat, seen: set<string>)
    requires SeenSoFar(EndpointNames(cfg), i, seen) && i < |cfg.endpoints| && EndpointNames(cfg)[i] in seen
    ensures !ValidNames(EndpointNames(cfg)) && Explains(cfg, DuplicateEndpoint(cfg.endpoints[i].name))
  {
    var j :| 0 <= j < i && EndpointNames(cfg)[j] == EndpointNames(cfg)[i];
    assert SameEndpoint(cfg, j, i, cfg.endpoints[i].name);
  }

  lemma SeenAll(names: seq<string>, seen: set<string>)
    requires SeenSoFar(names, |names|, seen)
    ensures seen == NameSet(names) && (ValidNames(names) <==> JoinedLength(seen) <= MAX_COMMENT_LEN)
  {
    assert seen == NameSet(names);
  }

  method CheckEndpoints(cfg: Config) returns (error: Option<ConfigError>)
    ensures error.None? <==> ValidNames(EndpointNames(cfg))
    ensures error.Some? ==> Explains(cfg, error.value)
  {
    ghost var names := EndpointNames(cfg);
    var seen: set<string> := {};
    for i := 0 to |cfg.endpoints|
      invariant SeenSoFar(names, i, seen)
    {
      var name := NormalizeName(cfg.endpoints[i].name);
      assert name == names[i] && name in names;
      if !IsHostname(name) { return Some(BadEndpoint(cfg.endpoints[i].name)); }
      if name in seen {
        SeenTwice(cfg, i, seen);
        return Some(DuplicateEndpoint(cfg.endpoints[i].name));
      }
      SeenNext(names, i, seen);
      seen := seen + {name};
    }
    SeenAll(names, seen);
    var bytes := JoinedLength(seen);
    return if bytes > MAX_COMMENT_LEN then Some(CommentTooLong(bytes)) else None;
  }

  method CheckStatics(cfg: Config) returns (error: Option<ConfigError>)
    ensures error.None? <==> forall h | h in cfg.staticHosts :: ValidStatic(h)
    ensures error.Some? ==> Explains(cfg, error.value)
  {
    var hosts := cfg.staticHosts;
    for i := 0 to |hosts|
      invariant forall h | h in hosts[..i] :: ValidStatic(h)
    {
      var h := hosts[i];
      assert h in hosts && hosts[..i + 1] == hosts[..i] + [h];
      if h.names == [] { return Some(EmptyStaticHost(h.ip)); }
      for j := 0 to |h.names|
        invariant forall name | name in h.names[..j] :: IsHostname(NormalizeName(name))
      {
        assert h.names[..j + 1] == h.names[..j] + [h.names[j]];
        if !IsHostname(NormalizeName(h.names[j])) { return Some(BadStaticName(h.names[j])); }
      }
    }
    return None;
  }

  // ---- characters of valid names ----

  predicate IsNameChar(c: char) {
    IsAlphanumeric(c) || c == '-' || c == '.'
  }

  lemma {:induction false} SplitCovers(s: string, sep: char, c: char)
    requires c in s && c != sep
    ensures exists piece :: piece in SplitOn(s, sep) && c in piece
  {
    var rest := SplitOn(s[1..], sep);
    var all := SplitOn(s, sep);
    if s[0] == c {
      assert all[0] in all && c in all[0];
    } else {
      assert s == [s[0]] + s[1..];
      SplitCovers(s[1..], sep, c);
      var piece :| piece in rest && c in piece;
      if s[0] == sep {
        assert piece in all;
      } else if piece == rest[0] {
        assert all[0] in all && c in all[0];
      } else {
        assert rest == [rest[0]] + rest[1..];
        assert piece in all;
      }
    }
  }

  /** A hostname is made of letters, digits, hyphens and dots: no white space,
      no quotes, no backslashes. */
  lemma HostnameChars(name: string)
    requires IsHostname(name)
    ensures forall c | c in name :: IsNameChar(c)
  {
    forall c | c in name ensures IsNameChar(c) {
      if c != '.' {
        SplitCovers(name, '.', c);
      }
    }
  }

  lemma HostnameIsWord(name: string)
    requires IsHostname(name)
    ensures IsWord(name)
  {
    HostnameChars(name);
  }

  // ---- normalizing twice ----

  lemma {:induction false} TrimStartFirst(s: string)
    ensures TrimStart(s) != "" ==> !IsSpace(TrimStart(s)[0])
  {
    if s != "" && IsSpace(s[0]) {
      TrimStartFirst(s[1..]);
    }
  }

  lemma {:induction false} TrimEndPrefix(s: string)
    ensures TrimEnd(s) <= s
    ensures TrimEnd(s) != "" ==> !IsSpace(TrimEnd(s)[|TrimEnd(s)| - 1])
  {
    if s != "" && IsSpace(s[|s| - 1]) {
      TrimEndPrefix(s[..|s| - 1]);
    }
  }

  lemma {:induction false} TrimDotsPrefix(s: string)
    ensures TrimDots(s) <= s
    ensures TrimDots(s) != "" ==> TrimDots(s)[|TrimDots(s)| - 1] != '.'
  {
    if s != "" && s[|s| - 1] == '.' {
      TrimDotsPrefix(s[..|s| - 1]);
    }
  }

  /** A normalized name starts with no white space and ends with no dot. */
  lemma NormalEnds(name: string)
    ensures
      var n := NormalizeName(name);
      n != "" ==> !IsSpace(n[0]) && n[|n| - 1] != '.' && LowerAll(n) == n
  {
    var t := Trim(name);
    TrimStartFirst(name);
    TrimEndPrefix(TrimStart(name));
    TrimDotsPrefix(t);
  }

  /** Only dots follow position `i`, which is none. */
  ghost predicate IsLastBeforeDots(t: string, i: nat) {
    i < |t| && t[i] != '.' && forall j | i < j < |t| :: t[j] == '.'
  }

  /** No white space stands right before the trailing dots. */
  ghost predicate DotsFollowNoSpace(t: string) {
    forall i: nat | IsLastBeforeDots(t, i) :: !IsSpace(t[i])
  }

  lemma {:induction false} TrimDotsEnd(t: string)
    ensures var d := TrimDots(t); d != "" ==> IsLastBeforeDots(t, |d| - 1)
    ensures TrimDots(t) == "" ==> forall i: nat :: !IsLastBeforeDots(t, i)
  {
    if t != "" && t[|t| - 1] == '.' {
      var init := t[..|t| - 1];
      TrimDotsEnd(init);
      forall i: nat ensures IsLastBeforeDots(t, i) <==> IsLastBeforeDots(init, i) {
        assert i < |init| ==> t[i] == init[i];
        assert forall j | i < j < |init| :: t[j] == init[j];
      }
    }
  }

  lemma OneLastBeforeDots(t: string, i: nat, j: nat)
    requires IsLastBeforeDots(t, i) && IsLastBeforeDots(t, j)
    ensures i == j
  {}

  lemma SpaceBeforeDots(t: string)
    ensures DotsFollowNoSpace(t) <==> TrimDots(t) == "" || !IsSpace(TrimDots(t)[|TrimDots(t)| - 1])
  {
    TrimDotsEnd(t);
    TrimDotsPrefix(t);
    var d := TrimDots(t);
    if d != "" {
      forall i: nat | IsLastBeforeDots(t, i) ensures i == |d| - 1 {
        OneLastBeforeDots(t, i, |d| - 1);
      }
    }
  }

  /** Normalizing is idempotent exactly on names whose trimmed text has no white
      space before its trailing dots. */
  lemma NormalizeTwice(name: string)
    ensures NormalizeName(NormalizeName(name)) == NormalizeName(name) <==> DotsFollowNoSpace(Trim(name))
  {
    var n := NormalizeName(name);
    NormalEnds(name);
    SpaceBeforeDots(Trim(name));
    assert n != "" ==> (IsSpace(n[|n| - 1]) <==> IsSpace(TrimDots(Trim(name))[|n| - 1]));
    if n != "" && !IsSpace(n[|n| - 1]) {
      TrimNoop(n);
    } else if n != "" {
      TrimEndPrefix(n);
      TrimDotsPrefix(Trim(n));
    }
  }

  /** White space before the trailing dots survives the first time only. */
  lemma SpaceBeforeDot()
    ensures NormalizeName("a .") == "a " && NormalizeName("a ") == "a"
  {
    assert Trim("a .") == "a ." && TrimDots("a .") == TrimDots("a ") == "a ";
    assert TrimEnd("a ") == TrimEnd("a") == "a" && TrimDots("a") == "a";
  }

  /** On names that validation accepts it is idempotent. */
  lemma AcceptedNameIsNormal(name: string)
    requires IsHostname(NormalizeName(name))
    ensures NormalizeName(NormalizeName(name)) == NormalizeName(name)
  {
    var n := NormalizeName(name);
    HostnameIsWord(n);
    NormalEnds(name);
    assert n[|n| - 1] in n;
    TrimNoop(n);
  }
}
