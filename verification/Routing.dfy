/** Routing: rules matched in order, the domain suffix walk, and what a domain strategy
    adds by resolving the destination. */
module Routing {
  import opened CidrIndex
  import opened Options

  datatype Address = Domain(name: string, port: nat) | IpPort(ip: Ip, port: nat)

  /** Literal domain patterns; keyword and regex matchers are given as one predicate. */
  datatype DomainMatcher = DomainMatcher(full: set<string>, suffix: set<string>, pattern: string -> bool)

  datatype Rule = Rule(tag: string, domain: Option<DomainMatcher>, geosite: seq<string>,
                       ip: Option<Ip -> bool>, geoip: seq<string>,
                       ports: seq<(nat, nat)>, inbounds: seq<string>, protocols: seq<string>)

  datatype Context = Context(inbound: string, protocol: Option<string>, sniffed: Option<string>)

  datatype Databases = Databases(geoip: map<string, Ip -> bool>, geosite: map<string, string -> bool>)

  datatype Strategy = AsIs | IpIfNonMatch | IpOnDemand

  // ---- The suffix walk --------------------------------------------------------------------

  /** `k` starts a label of `name`: at the front or after a dot, with something to follow. */
  predicate LabelStart(name: string, k: nat)
  {
    k < |name| && (k == 0 || name[k - 1] == '.')
  }

  predicate SuffixListed(suffix: set<string>, name: string)
  {
    exists k :: 0 <= k < |name| && LabelStart(name, k) && name[k..] in suffix
  }

  method FindDot(name: string, start: nat) returns (dot: nat)
    requires start <= |name|
    ensures start <= dot <= |name| && (dot < |name| ==> name[dot] == '.')
    ensures forall i :: start <= i < dot ==> name[i] != '.'
  {
    dot := start;
    while dot < |name| && name[dot] != '.'
      invariant start <= dot <= |name|
      invariant forall i :: start <= i < dot ==> name[i] != '.'
    {
      dot := dot + 1;
    }
  }

  /** From label to label: found exactly if the name, from some label on, is listed. */
  method WalkSuffixes(suffix: set<string>, name: string) returns (found: bool)
    ensures found <==> SuffixListed(suffix, name)
  {
    var start := 0;
    while start < |name|
      invariant 0 <= start <= |name|
      invariant start < |name| ==> LabelStart(name, start)
      invariant forall k :: 0 <= k < start && LabelStart(name, k) ==> name[k..] !in suffix
      decreases |name| - start
    {
      if name[start..] in suffix {
        return true;
      }
      var dot := FindDot(name, start);
      if dot == |name| {
        return false;
      }
      start := dot + 1;
    }
    found := false;
  }

  predicate EndsWith(name: string, tail: string)
  {
    |tail| <= |name| && name[|name| - |tail|..] == tail
  }

  /** A suffix pattern matches itself and everything below it, and nothing else. */
  lemma SuffixMeans(suffix: set<string>, name: string)
    ensures SuffixListed(suffix, name)
            <==> exists p :: p in suffix && p != "" && (p == name || EndsWith(name, "." + p))
  {
    if SuffixListed(suffix, name) {
      var k :| 0 <= k < |name| && LabelStart(name, k) && name[k..] in suffix;
      var p := name[k..];
      if k > 0 {
        assert name[k - 1..] == "." + p;
      } else {
        assert p == name;
      }
      assert p in suffix && p != "" && (p == name || EndsWith(name, "." + p));
    }
    if exists p :: p in suffix && p != "" && (p == name || EndsWith(name, "." + p)) {
      var p :| p in suffix && p != "" && (p == name || EndsWith(name, "." + p));
      var k := |name| - |p|;
      if p == name {
        assert name[0..] == name && LabelStart(name, 0);
      } else {
        var tail := "." + p;
        assert name[k - 1..] == tail;
        assert name[k - 1] == tail[0] && name[k..] == tail[1..] == p;
        assert LabelStart(name, k);
      }
    }
  }

  // ---- One rule ------------------------------------------------------------------------------

  predicate DomainMatches(m: DomainMatcher, name: string)
  {
    name in m.full || SuffixListed(m.suffix, name) || m.pattern(name)
  }

  predicate NamesIp(r: Rule)
  {
    r.ip.Some? || r.geoip != []
  }

  predicate NamesDomain(r: Rule)
  {
    r.domain.Some? || r.geosite != []
  }

  function DomainOf(dest: Address, ctx: Context): (name: Option<string>)
  {
    if dest.Domain? then Some(dest.name) else ctx.sniffed
  }

  predicate InGroup(db: Databases, group: string, name: string)
  {
    group in db.geosite && db.geosite[group](name)
  }

  predicate InCountry(db: Databases, country: string, ip: Ip)
  {
    country in db.geoip && db.geoip[country](ip)
  }

  predicate DomainPart(r: Rule, name: string, db: Databases)
  {
    || (r.domain.Some? && DomainMatches(r.domain.value, name))
    || exists i :: 0 <= i < |r.geosite| && InGroup(db, r.geosite[i], name)
  }

  predicate IpPart(r: Rule, ip: Ip, db: Databases)
  {
    || (r.ip.Some? && r.ip.value(ip))
    || exists i :: 0 <= i < |r.geoip| && InCountry(db, r.geoip[i], ip)
  }

  /** The conditions that do not look at the destination's name or address. */
  predicate CommonPart(r: Rule, port: nat, ctx: Context)
  {
    && (r.inbounds != [] ==> ctx.inbound in r.inbounds)
    && (r.protocols != [] ==> ctx.protocol.Some? && ctx.protocol.value in r.protocols)
    && (r.ports != [] ==> exists i :: 0 <= i < |r.ports| && r.ports[i].0 <= port <= r.ports[i].1)
  }

  /** All the conditions a rule states. */
  predicate RuleMatches(r: Rule, dest: Address, ctx: Context, db: Databases)
  {
    && CommonPart(r, dest.port, ctx)
    && (NamesDomain(r) ==> DomainOf(dest, ctx).Some? && DomainPart(r, DomainOf(dest, ctx).value, db))
    && (NamesIp(r) ==> dest.IpPort? && IpPart(r, dest.ip, db))
  }

  /** A rule that states nothing. */
  function Anything(tag: string): (r: Rule)
  {
    Rule(tag, None, [], None, [], [], [], [])
  }

  /** It matches everything; and a rule with a condition of one kind only, exactly what that
      condition says.  Of several ports, inbounds, protocols or groups any one will do, and the
      ends of a port range belong to it. */
  lemma PortRule(tag: string, ports: seq<(nat, nat)>, lo: nat, hi: nat, dest: Address, ctx: Context, db: Databases)
    ensures RuleMatches(Anything(tag), dest, ctx, db)
    ensures RuleMatches(Anything(tag).(ports := [(lo, hi)]), dest, ctx, db) <==> lo <= dest.port && dest.port <= hi
    ensures RuleMatches(Anything(tag).(ports := [(lo, hi)] + ports), dest, ctx, db)
            <==> || (lo <= dest.port && dest.port <= hi)
                 || (ports != [] && RuleMatches(Anything(tag).(ports := ports), dest, ctx, db))
  {
    var all := [(lo, hi)] + ports;
    assert all[0] == (lo, hi) && forall i :: 0 <= i < |ports| ==> all[i + 1] == ports[i];
    assert forall i :: 0 < i < |all| ==> all[i] == ports[i - 1];
  }

  lemma InboundRule(tag: string, inbounds: seq<string>, dest: Address, ctx: Context, db: Databases)
    requires inbounds != []
    ensures RuleMatches(Anything(tag).(inbounds := inbounds), dest, ctx, db) <==> ctx.inbound in inbounds
  {
  }

  lemma ProtocolRule(tag: string, protocols: seq<string>, dest: Address, ctx: Context, db: Databases)
    requires protocols != []
    ensures RuleMatches(Anything(tag).(protocols := protocols), dest, ctx, db)
            <==> ctx.protocol.Some? && ctx.protocol.value in protocols
  {
  }

  /** A name fits if it is listed, ends in a dot and a listed suffix or is one, or fits the
      pattern, or belongs to a known group; an address has the name that was sniffed, if any. */
  lemma DomainRule(tag: string, m: DomainMatcher, group: string, dest: Address, ctx: Context, db: Databases)
    ensures var name := match dest case Domain(n, _) => Some(n) case IpPort(_, _) => ctx.sniffed;
            && (RuleMatches(Anything(tag).(domain := Some(m)), dest, ctx, db)
                <==> && name.Some?
                     && (|| name.value in m.full || m.pattern(name.value)
                         || exists p :: p in m.suffix && p != ""
                                        && (p == name.value || EndsWith(name.value, "." + p))))
            && (RuleMatches(Anything(tag).(geosite := [group]), dest, ctx, db)
                <==> name.Some? && group in db.geosite && db.geosite[group](name.value))
            && (RuleMatches(Anything(tag).(domain := Some(m), geosite := [group]), dest, ctx, db)
                <==> || RuleMatches(Anything(tag).(domain := Some(m)), dest, ctx, db)
                     || RuleMatches(Anything(tag).(geosite := [group]), dest, ctx, db))
  {
    var name := DomainOf(dest, ctx);
    if name.Some? {
      SuffixMeans(m.suffix, name.value);
    }
    assert [group][0] == group;
  }

  /** An address fits if it is in the ranges or in a known country; a name never does. */
  lemma IpRule(tag: string, ranges: Ip -> bool, country: string, dest: Address, ctx: Context, db: Databases)
    ensures RuleMatches(Anything(tag).(ip := Some(ranges)), dest, ctx, db) <==> dest.IpPort? && ranges(dest.ip)
    ensures RuleMatches(Anything(tag).(geoip := [country]), dest, ctx, db)
            <==> dest.IpPort? && country in db.geoip && db.geoip[country](dest.ip)
    ensures RuleMatches(Anything(tag).(ip := Some(ranges), geoip := [country]), dest, ctx, db)
            <==> || RuleMatches(Anything(tag).(ip := Some(ranges)), dest, ctx, db)
                 || RuleMatches(Anything(tag).(geoip := [country]), dest, ctx, db)
  {
    assert [country][0] == country;
  }

  /** Any of several groups will do, and any of several countries. */
  lemma GroupRule(tag: string, groups: seq<string>, dest: Address, ctx: Context, db: Databases)
    requires groups != []
    ensures RuleMatches(Anything(tag).(geosite := groups), dest, ctx, db)
            <==> exists i :: 0 <= i < |groups| && RuleMatches(Anything(tag).(geosite := [groups[i]]), dest, ctx, db)
    ensures RuleMatches(Anything(tag).(geoip := groups), dest, ctx, db)
            <==> exists i :: 0 <= i < |groups| && RuleMatches(Anything(tag).(geoip := [groups[i]]), dest, ctx, db)
  {
    forall i | 0 <= i < |groups|
      ensures RuleMatches(Anything(tag).(geosite := [groups[i]]), dest, ctx, db)
              <==> && DomainOf(dest, ctx).Some? && groups[i] in db.geosite
                   && db.geosite[groups[i]](DomainOf(dest, ctx).value)
      ensures RuleMatches(Anything(tag).(geoip := [groups[i]]), dest, ctx, db)
              <==> dest.IpPort? && groups[i] in db.geoip && db.geoip[groups[i]](dest.ip)
    {
      assert [groups[i]][0] == groups[i];
    }
  }

  /** Any rule matches exactly what each kind of its conditions alone does. */
  lemma RuleIsItsParts(r: Rule, dest: Address, ctx: Context, db: Databases)
    ensures RuleMatches(r, dest, ctx, db)
            <==> && RuleMatches(Anything(r.tag).(ports := r.ports), dest, ctx, db)
                 && RuleMatches(Anything(r.tag).(inbounds := r.inbounds), dest, ctx, db)
                 && RuleMatches(Anything(r.tag).(protocols := r.protocols), dest, ctx, db)
                 && RuleMatches(Anything(r.tag).(domain := r.domain, geosite := r.geosite), dest, ctx, db)
                 && RuleMatches(Anything(r.tag).(ip := r.ip, geoip := r.geoip), dest, ctx, db)
  {
  }

  /** The program's test of a rule, condition by condition. */
  method MatchesWithGeo(r: Rule, dest: Address, ctx: Context, db: Databases) returns (matched: bool)
    ensures matched <==> RuleMatches(r, dest, ctx, db)
  {
    if r.inbounds != [] && ctx.inbound !in r.inbounds {
      return false;
    }
    if r.protocols != [] {
      if ctx.protocol.None? || ctx.protocol.value !in r.protocols {
        return false;
      }
    }
    if r.ports != [] {
      var inRange := AnyPort(r.ports, dest.port);
      if !inRange {
        return false;
      }
    }
    if r.domain.Some? || r.geosite != [] {
      var named := MatchesDomain(r, if dest.Domain? then Some(dest.name) else ctx.sniffed, db);
      if !named {
        return false;
      }
    }
    if r.ip.Some? || r.geoip != [] {
      if dest.Domain? {
        return false;
      }
      var located := MatchesIp(r, dest.ip, db);
      if !located {
        return false;
      }
    }
    return true;
  }

  method MatchesDomain(r: Rule, name: Option<string>, db: Databases) returns (matched: bool)
    ensures matched <==> name.Some? && DomainPart(r, name.value, db)
  {
    if name.None? {
      return false;
    }
    matched := false;
    if r.domain.Some? {
      matched := MatchesName(r.domain.value, name.value);
    }
    for i := 0 to |r.geosite|
      invariant matched || (r.domain.Some? ==> !DomainMatches(r.domain.value, name.value))
      invariant !matched ==> forall k :: 0 <= k < i ==> !InGroup(db, r.geosite[k], name.value)
      invariant matched ==> DomainPart(r, name.value, db)
    {
      matched := matched || InGroup(db, r.geosite[i], name.value);
    }
  }

  method MatchesIp(r: Rule, ip: Ip, db: Databases) returns (matched: bool)
    ensures matched <==> IpPart(r, ip, db)
  {
    matched := r.ip.Some? && r.ip.value(ip);
    for i := 0 to |r.geoip|
      invariant matched || (r.ip.Some? ==> !r.ip.value(ip))
      invariant !matched ==> forall k :: 0 <= k < i ==> !InCountry(db, r.geoip[k], ip)
      invariant matched ==> IpPart(r, ip, db)
    {
      matched := matched || InCountry(db, r.geoip[i], ip);
    }
  }

  method AnyPort(ports: seq<(nat, nat)>, port: nat) returns (any: bool)
    ensures any <==> exists i :: 0 <= i < |ports| && ports[i].0 <= port <= ports[i].1
  {
    for i := 0 to |ports|
      invariant forall k :: 0 <= k < i ==> !(ports[k].0 <= port <= ports[k].1)
    {
      if ports[i].0 <= port && port <= ports[i].1 {
        return true;
      }
    }
    any := false;
  }

  /** The program's test of a name: listed in full, then label by label, then the patterns. */
  method MatchesName(m: DomainMatcher, name: string) returns (matched: bool)
    ensures matched <==> DomainMatches(m, name)
  {
    if name in m.full {
      return true;
    }
    matched := WalkSuffixes(m.suffix, name);
    if !matched {
      matched := m.pattern(name);
    }
  }

  // ---- A list of rules -----------------------------------------------------------------------

  /** Rule `j` is the first that matches the destination. */
  predicate FirstRule(rules: seq<Rule>, dest: Address, ctx: Context, db: Databases, j: nat)
  {
    && j < |rules| && RuleMatches(rules[j], dest, ctx, db)
    && forall i :: 0 <= i < j ==> !RuleMatches(rules[i], dest, ctx, db)
  }

  predicate NoRule(rules: seq<Rule>, dest: Address, ctx: Context, db: Databases)
  {
    forall i :: 0 <= i < |rules| ==> !RuleMatches(rules[i], dest, ctx, db)
  }

  predicate HasIpRules(rules: seq<Rule>)
  {
    exists i :: 0 <= i < |rules| && NamesIp(rules[i])
  }

  datatype Table = Table(rules: seq<Rule>, defaultTag: string, db: Databases, strategy: Strategy, hasIpRules: bool)

  /** The destinations a strategy tries, in order. */
  function Candidates(strategy: Strategy, hasIpRules: bool, dest: Address, ips: seq<Ip>): (c: seq<Address>)
  {
    var resolved := if dest.Domain? then Resolved(ips, dest.port) else [];
    match strategy
    case AsIs => [dest]
    case IpIfNonMatch => [dest] + resolved
    case IpOnDemand => (if hasIpRules then resolved else []) + [dest]
  }

  /** An answer keeps the port of the question. */
  function Resolved(ips: seq<Ip>, port: nat): (r: seq<Address>)
    ensures |r| == |ips|
    ensures forall i :: 0 <= i < |r| ==> r[i] == IpPort(ips[i], port)
  {
    seq(|ips|, i requires 0 <= i < |ips| => IpPort(ips[i], port))
  }

  /** The route: the first matching rule of the first candidate that has one, or else the
      default. */
  ghost predicate IsRoute(t: Table, candidates: seq<Address>, ctx: Context, tag: string)
  {
    || (exists k: nat, j: nat :: Wins(t, candidates, ctx, k, j) && tag == t.rules[j].tag)
    || ((forall k :: 0 <= k < |candidates| ==> NoRule(t.rules, candidates[k], ctx, t.db)) && tag == t.defaultTag)
  }

  predicate Wins(t: Table, candidates: seq<Address>, ctx: Context, k: nat, j: nat)
  {
    && k < |candidates| && FirstRule(t.rules, candidates[k], ctx, t.db, j)
    && forall i :: 0 <= i < k ==> NoRule(t.rules, candidates[i], ctx, t.db)
  }

  /** There is only one. */
  lemma RouteIsUnique(t: Table, candidates: seq<Address>, ctx: Context, a: string, b: string)
    requires IsRoute(t, candidates, ctx, a) && IsRoute(t, candidates, ctx, b)
    ensures a == b
  {
    if k: nat, j: nat :| Wins(t, candidates, ctx, k, j) && a == t.rules[j].tag {
      if k', j': nat :| Wins(t, candidates, ctx, k', j') && b == t.rules[j'].tag {
        WinnerIsUnique(t, candidates, ctx, k, j, k', j');
      }
    }
  }

  lemma WinnerIsUnique(t: Table, candidates: seq<Address>, ctx: Context, k: nat, j: nat, k': nat, j': nat)
    requires Wins(t, candidates, ctx, k, j) && Wins(t, candidates, ctx, k', j')
    ensures k == k' && j == j'
  {
  }

  class LiveRouter {
    var table: Table

    predicate Valid()
      reads this
    {
      table.hasIpRules <==> HasIpRules(table.rules)
    }

    constructor (rules: seq<Rule>, defaultTag: string, db: Databases, strategy: Strategy)
      ensures Valid() && table == Table(rules, defaultTag, db, strategy, HasIpRules(rules))
    {
      var hasIpRules := AnyIpRule(rules);
      table := Table(rules, defaultTag, db, strategy, hasIpRules);
    }

    method Swap(rules: seq<Rule>, defaultTag: string, db: Databases, strategy: Strategy)
      modifies this
      ensures Valid() && table == Table(rules, defaultTag, db, strategy, HasIpRules(rules))
    {
      var hasIpRules := AnyIpRule(rules);
      table := Table(rules, defaultTag, db, strategy, hasIpRules);
    }

    static method AnyIpRule(rules: seq<Rule>) returns (any: bool)
      ensures any <==> HasIpRules(rules)
    {
      for i := 0 to |rules|
        invariant forall k :: 0 <= k < i ==> !NamesIp(rules[k])
      {
        if NamesIp(rules[i]) {
          return true;
        }
      }
      any := false;
    }

    /** First match wins; otherwise the default. */
    method PickRouteMatch(dest: Address, ctx: Context) returns (tag: string, matched: bool)
      ensures matched <==> !NoRule(table.rules, dest, ctx, table.db)
      ensures matched ==> exists j: nat :: FirstRule(table.rules, dest, ctx, table.db, j) && tag == table.rules[j].tag
      ensures !matched ==> tag == table.defaultTag
    {
      for i := 0 to |table.rules|
        invariant forall k :: 0 <= k < i ==> !RuleMatches(table.rules[k], dest, ctx, table.db)
      {
        var fits := MatchesWithGeo(table.rules[i], dest, ctx, table.db);
        if fits {
          assert FirstRule(table.rules, dest, ctx, table.db, i);
          return table.rules[i].tag, true;
        }
      }
      return table.defaultTag, false;
    }

    /** The resolved addresses in turn. */
    method PickResolved(dest: Address, ctx: Context, ips: seq<Ip>) returns (tag: string, matched: bool)
      requires dest.Domain?
      ensures var c := Resolved(ips, dest.port);
              && (matched ==> exists k: nat, j: nat :: Wins(table, c, ctx, k, j) && tag == table.rules[j].tag)
              && (!matched ==> forall k :: 0 <= k < |c| ==> NoRule(table.rules, c[k], ctx, table.db))
    {
      var c := Resolved(ips, dest.port);
      for i := 0 to |c|
        invariant forall k :: 0 <= k < i ==> NoRule(table.rules, c[k], ctx, table.db)
      {
        tag, matched := PickRouteMatch(c[i], ctx);
        if matched {
          ghost var j: nat :| FirstRule(table.rules, c[i], ctx, table.db, j) && tag == table.rules[j].tag;
          assert Wins(table, c, ctx, i, j);
          return;
        }
      }
      tag, matched := table.defaultTag, false;
    }

    /** Routing under the table's strategy; `ips` is what resolving the destination gives,
        none if that fails. */
    method PickRoute(dest: Address, ctx: Context, ips: seq<Ip>) returns (tag: string)
      ensures IsRoute(table, Candidates(table.strategy, table.hasIpRules, dest, ips), ctx, tag)
    {
      ghost var candidates := Candidates(table.strategy, table.hasIpRules, dest, ips);
      var matched;
      if table.strategy == IpOnDemand && dest.Domain? && table.hasIpRules {
        tag, matched := PickResolved(dest, ctx, ips);
        if matched {
          ghost var k: nat, j: nat :| Wins(table, Resolved(ips, dest.port), ctx, k, j) && tag == table.rules[j].tag;
          WinsWithMore(table, Resolved(ips, dest.port), [dest], ctx, k, j);
          return;
        }
      }
      tag, matched := PickRouteMatch(dest, ctx);
      if matched {
        ghost var j: nat :| FirstRule(table.rules, dest, ctx, table.db, j) && tag == table.rules[j].tag;
        DestWins(table, dest, ctx, ips, j);
        return;
      }
      if table.strategy == IpIfNonMatch && dest.Domain? {
        var better, found := PickResolved(dest, ctx, ips);
        if found {
          ghost var k: nat, j: nat :| Wins(table, Resolved(ips, dest.port), ctx, k, j) && better == table.rules[j].tag;
          WinsAfter(table, dest, Resolved(ips, dest.port), ctx, k, j);
          return better;
        }
      }
      assert forall k :: 0 <= k < |candidates| ==> NoRule(table.rules, candidates[k], ctx, table.db);
    }
  }

  lemma WinsWithMore(t: Table, c: seq<Address>, more: seq<Address>, ctx: Context, k: nat, j: nat)
    requires Wins(t, c, ctx, k, j)
    ensures Wins(t, c + more, ctx, k, j)
  {
  }

  lemma WinsAfter(t: Table, dest: Address, c: seq<Address>, ctx: Context, k: nat, j: nat)
    requires NoRule(t.rules, dest, ctx, t.db) && Wins(t, c, ctx, k, j)
    ensures Wins(t, [dest] + c, ctx, k + 1, j)
  {
    var all := [dest] + c;
    assert all[k + 1] == c[k];
    forall i | 0 <= i < k + 1 ensures NoRule(t.rules, all[i], ctx, t.db) {
      assert i > 0 ==> all[i] == c[i - 1];
    }
  }

  /** The destination itself wins where nothing before it matched. */
  lemma DestWins(t: Table, dest: Address, ctx: Context, ips: seq<Ip>, j: nat)
    requires FirstRule(t.rules, dest, ctx, t.db, j)
    requires t.strategy == IpOnDemand && dest.Domain? && t.hasIpRules ==>
               forall k :: 0 <= k < |ips| ==> NoRule(t.rules, Resolved(ips, dest.port)[k], ctx, t.db)
    ensures var c := Candidates(t.strategy, t.hasIpRules, dest, ips);
            exists k: nat :: Wins(t, c, ctx, k, j)
  {
    var c := Candidates(t.strategy, t.hasIpRules, dest, ips);
    var k := if t.strategy == IpOnDemand then |c| - 1 else 0;
    assert c[k] == dest;
    assert Wins(t, c, ctx, k, j);
  }

  // ---- What resolving can change ----------------------------------------------------------------

  /** The rule that decides, when `first` is the first candidate with one. */
  lemma FirstCandidateDecides(t: Table, c: seq<Address>, ctx: Context, k: nat, j: nat, tag: string)
    requires Wins(t, c, ctx, k, j)
    ensures IsRoute(t, c, ctx, tag) <==> tag == t.rules[j].tag
  {
    if IsRoute(t, c, ctx, tag) {
      RouteIsUnique(t, c, ctx, tag, t.rules[j].tag);
    }
  }

  /** The order of a strategy, for a name with answers.  AsIs looks at the name alone;
      IpIfNonMatch at the first answer only if no rule fits the name; IpOnDemand, if some rule
      looks at addresses, at the first answer before the name, and else at the name alone. */
  lemma StrategyOrder(t: Table, dest: Address, ctx: Context, ips: seq<Ip>, byName: nat, byAddress: nat, tag: string)
    requires dest.Domain? && ips != []
    ensures FirstRule(t.rules, dest, ctx, t.db, byName) ==>
              && (IsRoute(t, Candidates(AsIs, t.hasIpRules, dest, ips), ctx, tag) <==> tag == t.rules[byName].tag)
              && (IsRoute(t, Candidates(IpIfNonMatch, t.hasIpRules, dest, ips), ctx, tag)
                  <==> tag == t.rules[byName].tag)
              && (IsRoute(t, Candidates(IpOnDemand, false, dest, ips), ctx, tag) <==> tag == t.rules[byName].tag)
    ensures FirstRule(t.rules, IpPort(ips[0], dest.port), ctx, t.db, byAddress) ==>
              && (IsRoute(t, Candidates(IpOnDemand, true, dest, ips), ctx, tag) <==> tag == t.rules[byAddress].tag)
              && (NoRule(t.rules, dest, ctx, t.db) ==>
                    (IsRoute(t, Candidates(IpIfNonMatch, t.hasIpRules, dest, ips), ctx, tag)
                     <==> tag == t.rules[byAddress].tag))
    ensures NoRule(t.rules, dest, ctx, t.db) ==>
              (IsRoute(t, Candidates(AsIs, t.hasIpRules, dest, ips), ctx, tag) <==> tag == t.defaultTag)
  {
    if FirstRule(t.rules, dest, ctx, t.db, byName) {
      FirstCandidateDecides(t, Candidates(AsIs, t.hasIpRules, dest, ips), ctx, 0, byName, tag);
      FirstCandidateDecides(t, Candidates(IpIfNonMatch, t.hasIpRules, dest, ips), ctx, 0, byName, tag);
      assert Candidates(IpOnDemand, false, dest, ips) == [dest];
      FirstCandidateDecides(t, [dest], ctx, 0, byName, tag);
    }
    if FirstRule(t.rules, IpPort(ips[0], dest.port), ctx, t.db, byAddress) {
      FirstCandidateDecides(t, Candidates(IpOnDemand, true, dest, ips), ctx, 0, byAddress, tag);
      if NoRule(t.rules, dest, ctx, t.db) {
        FirstCandidateDecides(t, Candidates(IpIfNonMatch, t.hasIpRules, dest, ips), ctx, 1, byAddress, tag);
      }
    }
    if NoRule(t.rules, dest, ctx, t.db) {
      assert Candidates(AsIs, t.hasIpRules, dest, ips) == [dest];
    }
  }

  /** An address is never resolved: every strategy looks at it alone. */
  lemma AddressesAreFinal(t: Table, dest: Address, ips: seq<Ip>, strategy: Strategy)
    requires dest.IpPort?
    ensures Candidates(strategy, t.hasIpRules, dest, ips) == [dest]
  {
  }

  /** Where the destination as given finds a rule, IpIfNonMatch routes as AsIs does. */
  lemma NonMatchKeepsAsIs(t: Table, dest: Address, ctx: Context, ips: seq<Ip>, tag: string)
    requires !NoRule(t.rules, dest, ctx, t.db)
    ensures IsRoute(t, Candidates(IpIfNonMatch, t.hasIpRules, dest, ips), ctx, tag)
            <==> IsRoute(t, Candidates(AsIs, t.hasIpRules, dest, ips), ctx, tag)
  {
    var c, d := Candidates(IpIfNonMatch, t.hasIpRules, dest, ips), Candidates(AsIs, t.hasIpRules, dest, ips);
    assert c[0] == dest && d[0] == dest;
    assert forall k: nat, j: nat :: Wins(t, c, ctx, k, j) <==> Wins(t, d, ctx, k, j);
  }

  /** Without IP conditions a rule matches a resolved address as it matches the name that
      was sniffed. */
  lemma WithoutIpRules(r: Rule, ip: Ip, port: nat, ctx: Context, db: Databases)
    requires !NamesIp(r)
    ensures RuleMatches(r, IpPort(ip, port), ctx, db)
            <==> && CommonPart(r, port, ctx)
                 && (NamesDomain(r) ==> ctx.sniffed.Some? && DomainPart(r, ctx.sniffed.value, db))
  {
  }

  /** With no IP rules and nothing sniffed, no answer matches where the name did not. */
  lemma {:induction false} AnswersAddNothing(t: Table, dest: Address, ctx: Context, ip: Ip)
    requires !HasIpRules(t.rules) && ctx.sniffed.None? && NoRule(t.rules, dest, ctx, t.db)
    ensures NoRule(t.rules, IpPort(ip, dest.port), ctx, t.db)
  {
    forall i | 0 <= i < |t.rules| ensures !RuleMatches(t.rules[i], IpPort(ip, dest.port), ctx, t.db) {
      WithoutIpRules(t.rules[i], ip, dest.port, ctx, t.db);
      assert !RuleMatches(t.rules[i], dest, ctx, t.db);
    }
  }

  /** So the route does not depend on what DNS says: it is the AsIs route. */
  lemma DnsDoesNotMatter(t: Table, dest: Address, ctx: Context, ips: seq<Ip>, tag: string)
    requires !HasIpRules(t.rules) && !t.hasIpRules && ctx.sniffed.None?
    ensures IsRoute(t, Candidates(t.strategy, t.hasIpRules, dest, ips), ctx, tag) <==> IsRoute(t, [dest], ctx, tag)
  {
    var c := Candidates(t.strategy, t.hasIpRules, dest, ips);
    assert t.strategy != IpIfNonMatch ==> c == [dest];
    if t.strategy == IpIfNonMatch {
      if NoRule(t.rules, dest, ctx, t.db) {
        forall k | 0 <= k < |c| ensures NoRule(t.rules, c[k], ctx, t.db) {
          if k > 0 {
            AnswersAddNothing(t, dest, ctx, c[k].ip);
          }
        }
        assert [dest][0] == dest;
      } else {
        NonMatchKeepsAsIs(t, dest, ctx, ips, tag);
      }
    }
  }

  /** The first rule that fits the connection with its sniffed name in place of the
      destination's routes elsewhere than the default. */
  ghost predicate Diverts(t: Table, port: nat, ctx: Context, ip: Ip)
  {
    exists j: nat :: FirstRule(t.rules, IpPort(ip, port), ctx, t.db, j) && t.rules[j].tag != t.defaultTag
  }

  lemma AnyAnswerWillDo(t: Table, port: nat, ctx: Context, a: Ip, b: Ip)
    requires !HasIpRules(t.rules)
    ensures Diverts(t, port, ctx, a) <==> Diverts(t, port, ctx, b)
    ensures NoRule(t.rules, IpPort(a, port), ctx, t.db) <==> NoRule(t.rules, IpPort(b, port), ctx, t.db)
  {
    forall i | 0 <= i < |t.rules|
      ensures RuleMatches(t.rules[i], IpPort(a, port), ctx, t.db)
              <==> RuleMatches(t.rules[i], IpPort(b, port), ctx, t.db)
    {
      WithoutIpRules(t.rules[i], a, port, ctx, t.db);
      WithoutIpRules(t.rules[i], b, port, ctx, t.db);
    }
    assert forall j: nat ::
        FirstRule(t.rules, IpPort(a, port), ctx, t.db, j) <==> FirstRule(t.rules, IpPort(b, port), ctx, t.db, j);
  }

  /** With no IP rules, an answer changes the route exactly when the name as given finds no
      rule and the sniffed one diverts; which addresses were answered does not matter. */
  lemma AnswersMatterExactly(t: Table, dest: Address, ctx: Context, ips: seq<Ip>, any: Ip, asIs: string, routed: string)
    requires !HasIpRules(t.rules) && dest.Domain? && ips != []
    requires IsRoute(t, [dest], ctx, asIs)
    requires IsRoute(t, Candidates(IpIfNonMatch, t.hasIpRules, dest, ips), ctx, routed)
    ensures routed != asIs <==> NoRule(t.rules, dest, ctx, t.db) && Diverts(t, dest.port, ctx, any)
  {
    var c := Candidates(IpIfNonMatch, t.hasIpRules, dest, ips);
    if NoRule(t.rules, dest, ctx, t.db) {
      assert c[1] == IpPort(ips[0], dest.port);
      AnyAnswerWillDo(t, dest.port, ctx, any, ips[0]);
      RoutedByFirstAnswer(t, dest, ctx, ips, routed);
    } else {
      NonMatchKeepsAsIs(t, dest, ctx, ips, routed);
      RouteIsUnique(t, [dest], ctx, asIs, routed);
    }
  }

  lemma RoutedByFirstAnswer(t: Table, dest: Address, ctx: Context, ips: seq<Ip>, routed: string)
    requires !HasIpRules(t.rules) && dest.Domain? && ips != [] && NoRule(t.rules, dest, ctx, t.db)
    requires IsRoute(t, Candidates(IpIfNonMatch, t.hasIpRules, dest, ips), ctx, routed)
    ensures routed != t.defaultTag <==> Diverts(t, dest.port, ctx, ips[0])
  {
    var c := Candidates(IpIfNonMatch, t.hasIpRules, dest, ips);
    var first := IpPort(ips[0], dest.port);
    assert c[1] == first;
    if NoRule(t.rules, first, ctx, t.db) {
      forall k | 0 <= k < |c| ensures NoRule(t.rules, c[k], ctx, t.db) {
        if k > 0 {
          AnyAnswerWillDo(t, dest.port, ctx, ips[0], c[k].ip);
        }
      }
    } else {
      var k: nat, j: nat :| Wins(t, c, ctx, k, j) && routed == t.rules[j].tag;
      assert k == 1;
    }
  }

  /** Sniffing `x` on a connection to `y`, with one rule for `x` and no IP rules: the route
      depends on whether DNS answers. */
  lemma SniffedNameNeedsDns(ip: Ip)
    ensures var rule := Rule("proxy", Some(DomainMatcher({"x"}, {}, _ => false)), [], None, [], [], [], []);
            var t := Table([rule], "direct", Databases(map[], map[]), IpIfNonMatch, false);
            var ctx := Context("in", None, Some("x"));
            && !HasIpRules(t.rules)
            && IsRoute(t, Candidates(IpIfNonMatch, false, Domain("y", 443), []), ctx, "direct")
            && IsRoute(t, Candidates(IpIfNonMatch, false, Domain("y", 443), [ip]), ctx, "proxy")
  {
    var rule := Rule("proxy", Some(DomainMatcher({"x"}, {}, _ => false)), [], None, [], [], [], []);
    var t := Table([rule], "direct", Databases(map[], map[]), IpIfNonMatch, false);
    var ctx := Context("in", None, Some("x"));
    var dest := Domain("y", 443);
    assert NoRule(t.rules, dest, ctx, t.db);
    assert FirstRule(t.rules, IpPort(ip, 443), ctx, t.db, 0);
    var c := Candidates(IpIfNonMatch, false, dest, [ip]);
    assert c[1] == IpPort(ip, 443);
    assert Wins(t, c, ctx, 1, 0);
  }
}
