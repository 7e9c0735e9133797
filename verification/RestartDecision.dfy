/** Whether a changed configuration needs a new instance: what a "no" guarantees, and the
    condition under which it does. */
module RestartDecision {
  import opened Options

  datatype Json = Null | Bool(b: bool) | Text(text: string) | Number(n: int) | Decimal(x: real)
                | Array(items: seq<Json>) | Object(fields: map<string, Json>)

  /** What serialising a value gives; it may fail. */
  datatype Serialised = Value(json: Json) | Unserialisable

  datatype Protocol = Vless | Vmess | Trojan | Shadowsocks | Hysteria2 | ShadowTls | Socks | Http | Freedom

  /** An inbound; what has a shape of its own appears as the JSON it serialises to. */
  datatype Inbound = Inbound(tag: string, protocol: Protocol, listen: string, port: nat, settings: Json,
                             streamSettings: Option<Json>, limits: Option<Json>, sniffing: Option<Json>)

  datatype Config = Config(inbounds: seq<Inbound>, outbounds: Serialised, tun: Serialised,
                           api: string, metricsAddr: string)

  // ---- Serialising and normalising --------------------------------------------------------------

  function ProtocolName(p: Protocol): (name: string)
  {
    match p
    case Vless => "vless"
    case Vmess => "vmess"
    case Trojan => "trojan"
    case Shadowsocks => "shadowsocks"
    case Hysteria2 => "hysteria2"
    case ShadowTls => "shadowtls"
    case Socks => "socks"
    case Http => "http"
    case Freedom => "freedom"
  }

  /** A field that is left out when there is nothing in it. */
  function Optional(key: string, value: Option<Json>): (fields: map<string, Json>)
  {
    if value.Some? then map[key := value.value] else map[]
  }

  /** The fields of the object an inbound serialises to. */
  function Body(i: Inbound): (fields: map<string, Json>)
  {
    map["tag" := Text(i.tag), "protocol" := Text(ProtocolName(i.protocol)), "listen" := Text(i.listen),
        "port" := Number(i.port), "settings" := i.settings]
    + Optional("streamSettings", i.streamSettings) + Optional("limits", i.limits) + Optional("sniffing", i.sniffing)
  }

  /** The object for comparison: without sniffing, and for VLESS without its clients. */
  function Normalized(i: Inbound): (fields: map<string, Json>)
  {
    var fields := Body(i) - {"sniffing"};
    if i.protocol == Vless && fields["settings"].Object? then
      fields["settings" := Object(fields["settings"].fields - {"clients"})]
    else fields
  }

  /** Settings for comparison. */
  function FixedSettings(i: Inbound): (settings: Json)
  {
    if i.protocol == Vless && i.settings.Object? then Object(i.settings.fields - {"clients"}) else i.settings
  }

  lemma WithoutSniffing(i: Inbound)
    ensures Body(i) - {"sniffing"} == Body(i.(sniffing := None))
  {
  }

  lemma WithSettings(i: Inbound, settings: Json)
    ensures Body(i)["settings" := settings] == Body(i.(settings := settings))
  {
  }

  /** Normalising an inbound is serialising it without what can be changed while running. */
  lemma NormalizedIsABody(i: Inbound)
    ensures Normalized(i) == Body(i.(settings := FixedSettings(i), sniffing := None))
  {
    var quiet := i.(sniffing := None);
    WithoutSniffing(i);
    BodyDescribes(quiet);
    WithSettings(quiet, FixedSettings(i));
    assert quiet.(settings := i.settings) == quiet;
  }

  lemma NamesDiffer(p: Protocol, q: Protocol)
    requires ProtocolName(p) == ProtocolName(q)
    ensures p == q
  {
    assert |ProtocolName(p)| == |ProtocolName(q)| && ProtocolName(p)[0] == ProtocolName(q)[0];
    assert |ProtocolName(p)| > 2 && ProtocolName(p)[1] == ProtocolName(q)[1];
  }

  predicate Has(fields: map<string, Json>, key: string, value: Option<Json>)
  {
    (key in fields <==> value.Some?) && (value.Some? ==> fields[key] == value.value)
  }

  /** An object with the fields of an inbound. */
  predicate Describes(fields: map<string, Json>, i: Inbound)
  {
    && Has(fields, "tag", Some(Text(i.tag))) && Has(fields, "protocol", Some(Text(ProtocolName(i.protocol))))
    && Has(fields, "listen", Some(Text(i.listen))) && Has(fields, "port", Some(Number(i.port)))
    && Has(fields, "settings", Some(i.settings)) && Has(fields, "streamSettings", i.streamSettings)
    && Has(fields, "limits", i.limits) && Has(fields, "sniffing", i.sniffing)
  }

  lemma BodyDescribes(i: Inbound)
    ensures Describes(Body(i), i)
  {
  }

  /** An object describes one inbound only: every field can be told from it. */
  lemma DescribesOne(fields: map<string, Json>, a: Inbound, b: Inbound)
    requires Describes(fields, a) && Describes(fields, b)
    ensures a == b
  {
    NamesDiffer(a.protocol, b.protocol);
  }

  /** The two agree at a key. */
  predicate Agree(a: map<string, Json>, b: map<string, Json>, key: string)
  {
    (key in a <==> key in b) && (key in a ==> a[key] == b[key])
  }

  /** Equal but for sniffing and, between VLESS inbounds, the clients in their settings. */
  ghost predicate HotDifferenceOnly(a: Inbound, b: Inbound)
  {
    && a.tag == b.tag && a.protocol == b.protocol && a.listen == b.listen && a.port == b.port
    && a.streamSettings == b.streamSettings && a.limits == b.limits
    && if a.protocol == Vless && a.settings.Object? && b.settings.Object? then
         forall key :: key != "clients" ==> Agree(a.settings.fields, b.settings.fields, key)
       else a.settings == b.settings
  }

  lemma WithoutAgrees(a: map<string, Json>, b: map<string, Json>, drop: string)
    ensures a - {drop} == b - {drop} <==> forall key :: key != drop ==> Agree(a, b, key)
  {
    var x, y := a - {drop}, b - {drop};
    if x == y {
      forall key | key != drop ensures Agree(a, b, key) {
        assert key in a <==> key in x;
        assert key in b <==> key in y;
      }
    }
    if forall key :: key != drop ==> Agree(a, b, key) {
      forall key ensures key in x <==> key in y {
        assert key != drop ==> Agree(a, b, key);
      }
      forall key | key in x ensures x[key] == y[key] {
        assert Agree(a, b, key);
      }
    }
  }

  lemma SettingsAgree(a: Inbound, b: Inbound)
    requires a.protocol == b.protocol
    ensures FixedSettings(a) == FixedSettings(b)
            <==> if a.protocol == Vless && a.settings.Object? && b.settings.Object? then
                   forall key :: key != "clients" ==> Agree(a.settings.fields, b.settings.fields, key)
                 else a.settings == b.settings
  {
    if a.protocol == Vless && a.settings.Object? && b.settings.Object? {
      WithoutAgrees(a.settings.fields, b.settings.fields, "clients");
    }
  }

  /** Any two inbounds compare equal exactly when they differ only in what can be changed
      while running; in particular a change of protocol never compares equal. */
  lemma ComparesEqualExactly(a: Inbound, b: Inbound)
    ensures Normalized(a) == Normalized(b) <==> HotDifferenceOnly(a, b)
  {
    var x, y := a.(settings := FixedSettings(a), sniffing := None), b.(settings := FixedSettings(b), sniffing := None);
    NormalizedIsABody(a);
    NormalizedIsABody(b);
    if Normalized(a) == Normalized(b) {
      BodyDescribes(x);
      BodyDescribes(y);
      DescribesOne(Body(x), x, y);
    }
    if a.protocol == b.protocol {
      SettingsAgree(a, b);
    }
  }

  // ---- The decision ------------------------------------------------------------------------------

  /** The first inbound with the tag. */
  predicate FoundAt(inbounds: seq<Inbound>, tag: string, k: nat)
  {
    k < |inbounds| && inbounds[k].tag == tag && forall i :: 0 <= i < k ==> inbounds[i].tag != tag
  }

  predicate HasTag(inbounds: seq<Inbound>, tag: string)
  {
    exists i :: 0 <= i < |inbounds| && inbounds[i].tag == tag
  }

  method Find(inbounds: seq<Inbound>, tag: string) returns (k: nat)
    ensures k <= |inbounds|
    ensures k < |inbounds| ==> FoundAt(inbounds, tag, k)
    ensures k == |inbounds| ==> !HasTag(inbounds, tag)
  {
    k := 0;
    while k < |inbounds| && inbounds[k].tag != tag
      invariant k <= |inbounds|
      invariant forall i :: 0 <= i < k ==> inbounds[i].tag != tag
    {
      k := k + 1;
    }
  }

  /** The listener of a new inbound is not the one that runs under its tag. */
  ghost predicate Moved(former: seq<Inbound>, n: Inbound)
  {
    !exists k: nat :: FoundAt(former, n.tag, k) && former[k].listen == n.listen && former[k].port == n.port
  }

  /** One of the first `n` inbounds has the tag and moved. */
  ghost predicate MovedTag(former: seq<Inbound>, ins: seq<Inbound>, n: nat, tag: string)
    requires n <= |ins|
  {
    exists j :: 0 <= j < n && ins[j].tag == tag && Moved(former, ins[j])
  }

  /** Tags in order: of those that moved, and of those that are new, which also moved. */
  ghost function MovedTags(former: seq<Inbound>, ins: seq<Inbound>, n: nat): (tags: seq<string>)
    requires n <= |ins|
  {
    if n == 0 then []
    else MovedTags(former, ins, n - 1) + if Moved(former, ins[n - 1]) then [ins[n - 1].tag] else []
  }

  ghost function NewTags(former: seq<Inbound>, ins: seq<Inbound>, n: nat): (tags: seq<string>)
    requires n <= |ins|
  {
    if n == 0 then []
    else NewTags(former, ins, n - 1) + if !HasTag(former, ins[n - 1].tag) then [ins[n - 1].tag] else []
  }

  /** The moved are among those tags, no others are, and the new moved as well. */
  lemma {:induction false} TagMeans(former: seq<Inbound>, ins: seq<Inbound>, n: nat, tag: string)
    requires n <= |ins|
    ensures tag in MovedTags(former, ins, n) <==> MovedTag(former, ins, n, tag)
    ensures tag in NewTags(former, ins, n) ==> MovedTag(former, ins, n, tag)
    decreases n
  {
    if n > 0 {
      TagMeans(former, ins, n - 1, tag);
      OneMore(former, ins, n - 1, tag);
      if !HasTag(former, ins[n - 1].tag) {
        NewMoved(former, ins[n - 1]);
      }
    }
  }

  lemma OneMore(former: seq<Inbound>, ins: seq<Inbound>, n: nat, tag: string)
    requires n < |ins|
    ensures MovedTag(former, ins, n + 1, tag)
            <==> MovedTag(former, ins, n, tag) || (ins[n].tag == tag && Moved(former, ins[n]))
  {
  }

  lemma TagsMean(former: seq<Inbound>, ins: seq<Inbound>, changed: seq<string>)
    requires changed == MovedTags(former, ins, |ins|) + NewTags(former, ins, |ins|)
    ensures forall t :: t in changed <==> MovedTag(former, ins, |ins|, t)
    ensures changed == [] <==> forall j :: 0 <= j < |ins| ==> !Moved(former, ins[j])
  {
    forall t ensures t in changed <==> MovedTag(former, ins, |ins|, t) {
      TagMeans(former, ins, |ins|, t);
    }
    if changed != [] {
      assert changed[0] in changed;
    }
    forall j | 0 <= j < |ins| && Moved(former, ins[j]) ensures changed != [] {
      assert ins[j].tag in changed;
    }
  }

  lemma NewMoved(former: seq<Inbound>, n: Inbound)
    requires !HasTag(former, n.tag)
    ensures Moved(former, n)
  {
  }

  lemma FoundOnce(inbounds: seq<Inbound>, tag: string, j: nat, k: nat)
    requires FoundAt(inbounds, tag, j) && FoundAt(inbounds, tag, k)
    ensures j == k
  {
  }

  /** Two passes, both over the new inbounds: those whose listener moved or is new, and the
      new ones once more.  Nothing is said of inbounds that went away. */
  method InboundListenerChanges(former: Config, proposed: Config) returns (changed: seq<string>)
    ensures changed == []
            <==> forall i :: 0 <= i < |proposed.inbounds| ==> !Moved(former.inbounds, proposed.inbounds[i])
    ensures forall t :: t in changed <==> MovedTag(former.inbounds, proposed.inbounds, |proposed.inbounds|, t)
    ensures changed == MovedTags(former.inbounds, proposed.inbounds, |proposed.inbounds|)
                       + NewTags(former.inbounds, proposed.inbounds, |proposed.inbounds|)
  {
    changed := [];
    var ins := proposed.inbounds;
    for i := 0 to |ins|
      invariant changed == MovedTags(former.inbounds, ins, i)
    {
      var k := Find(former.inbounds, ins[i].tag);
      if k == |former.inbounds| {
        changed := changed + [ins[i].tag];
        continue;
      }
      assert forall j: nat :: FoundAt(former.inbounds, ins[i].tag, j) ==> j == k;
      if former.inbounds[k].listen != ins[i].listen || former.inbounds[k].port != ins[i].port {
        changed := changed + [ins[i].tag];
      } else {
        assert !Moved(former.inbounds, ins[i]);
      }
    }
    ghost var moved := changed;
    for i := 0 to |ins|
      invariant changed == moved + NewTags(former.inbounds, ins, i)
    {
      var k := Find(former.inbounds, ins[i].tag);
      if k == |former.inbounds| {
        changed := changed + [ins[i].tag];
      }
    }
    TagsMean(former.inbounds, ins, changed);
  }

  /** Everything but the inbounds is the same, and serialises. */
  predicate SameSettings(former: Config, proposed: Config)
  {
    && former.metricsAddr == proposed.metricsAddr && former.api == proposed.api
    && former.tun.Value? && former.tun == proposed.tun
    && former.outbounds.Value? && former.outbounds == proposed.outbounds
  }

  predicate Equivalent(a: Inbound, b: Inbound)
  {
    a.listen == b.listen && a.port == b.port && Normalized(a) == Normalized(b)
  }

  /** What the decision looks at: each new inbound against the first old one of its tag. */
  ghost predicate NoRestart(former: Config, proposed: Config)
  {
    && SameSettings(former, proposed) && |former.inbounds| == |proposed.inbounds|
    && forall i :: 0 <= i < |proposed.inbounds| ==> Matched(former.inbounds, proposed.inbounds[i])
  }

  ghost predicate Matched(former: seq<Inbound>, n: Inbound)
  {
    exists k: nat :: FoundAt(former, n.tag, k) && Equivalent(former[k], n)
  }

  method RequiresInstanceRestart(former: Config, proposed: Config) returns (restart: bool)
    ensures restart <==> !NoRestart(former, proposed)
  {
    forall i | 0 <= i < |proposed.inbounds|
      ensures var a, n := former.inbounds, proposed.inbounds[i]; Matched(a, n) <==> !Moved(a, n) && SameBody(a, n)
    {
      MatchedInParts(former.inbounds, proposed.inbounds[i]);
    }
    var changed := InboundListenerChanges(former, proposed);
    if changed != [] {
      return true;
    }
    if former.metricsAddr != proposed.metricsAddr || former.api != proposed.api {
      return true;
    }
    if former.tun.Unserialisable? || proposed.tun.Unserialisable? || former.tun != proposed.tun {
      return true;
    }
    if former.outbounds.Unserialisable? || proposed.outbounds.Unserialisable?
       || former.outbounds != proposed.outbounds
    {
      return true;
    }
    if |former.inbounds| != |proposed.inbounds| {
      return true;
    }
    restart := CompareInbounds(former.inbounds, proposed.inbounds);
  }

  ghost predicate SameBody(former: seq<Inbound>, n: Inbound)
  {
    exists k: nat :: FoundAt(former, n.tag, k) && Normalized(former[k]) == Normalized(n)
  }

  method CompareInbounds(former: seq<Inbound>, ins: seq<Inbound>) returns (differ: bool)
    ensures differ <==> !forall i :: 0 <= i < |ins| ==> SameBody(former, ins[i])
  {
    for i := 0 to |ins|
      invariant forall j :: 0 <= j < i ==> SameBody(former, ins[j])
    {
      var k := Find(former, ins[i].tag);
      if k == |former| {
        assert !SameBody(former, ins[i]);
        return true;
      }
      assert forall j: nat :: FoundAt(former, ins[i].tag, j) ==> j == k;
      if Normalized(former[k]) != Normalized(ins[i]) {
        assert !SameBody(former, ins[i]);
        return true;
      }
    }
    differ := false;
  }

  /** Listener and body are found under the same inbound. */
  lemma MatchedInParts(former: seq<Inbound>, n: Inbound)
    ensures Matched(former, n) <==> !Moved(former, n) && SameBody(former, n)
  {
    if !Moved(former, n) && SameBody(former, n) {
      var j: nat :| FoundAt(former, n.tag, j) && former[j].listen == n.listen && former[j].port == n.port;
      var k: nat :| FoundAt(former, n.tag, k) && Normalized(former[k]) == Normalized(n);
      FoundOnce(former, n.tag, j, k);
      assert Equivalent(former[k], n);
    }
  }

  // ---- What a "no" guarantees ----------------------------------------------------------------------

  predicate Distinct(inbounds: seq<Inbound>)
  {
    forall i, j :: 0 <= i < j < |inbounds| ==> inbounds[i].tag != inbounds[j].tag
  }

  function Tags(inbounds: seq<Inbound>): (tags: set<string>)
  {
    set i | 0 <= i < |inbounds| :: inbounds[i].tag
  }

  lemma {:induction false} TagCount(inbounds: seq<Inbound>)
    ensures |Tags(inbounds)| <= |inbounds|
    ensures |Tags(inbounds)| == |inbounds| <==> Distinct(inbounds)
  {
    if inbounds == [] {
      assert Tags(inbounds) == {};
    } else {
      var head, last := inbounds[..|inbounds| - 1], inbounds[|inbounds| - 1];
      TagCount(head);
      assert Tags(inbounds) == Tags(head) + {last.tag} by {
        forall t | t in Tags(inbounds) ensures t in Tags(head) + {last.tag} {
          var i :| 0 <= i < |inbounds| && inbounds[i].tag == t;
          assert i < |head| ==> head[i].tag == t;
        }
        forall t | t in Tags(head) ensures t in Tags(inbounds) {
          var i :| 0 <= i < |head| && head[i].tag == t;
          assert inbounds[i].tag == t;
        }
        assert inbounds[|inbounds| - 1].tag == last.tag;
      }
      if last.tag in Tags(head) {
        var i :| 0 <= i < |head| && head[i].tag == last.tag;
        assert Tags(inbounds) == Tags(head);
        assert inbounds[i].tag == inbounds[|inbounds| - 1].tag;
      } else {
        TagsOfHead(inbounds);
      }
    }
  }

  lemma TagsOfHead(inbounds: seq<Inbound>)
    requires inbounds != []
    requires inbounds[|inbounds| - 1].tag !in Tags(inbounds[..|inbounds| - 1])
    ensures Distinct(inbounds) <==> Distinct(inbounds[..|inbounds| - 1])
  {
    var head := inbounds[..|inbounds| - 1];
    if Distinct(head) {
      forall i, j | 0 <= i < j < |inbounds| ensures inbounds[i].tag != inbounds[j].tag {
        assert head[i].tag in Tags(head);
        assert j < |head| ==> head[j].tag == inbounds[j].tag;
      }
    }
  }

  lemma SubsetOfEqualSize(a: set<string>, b: set<string>)
    requires a <= b && |a| >= |b|
    ensures a == b
  {
    if a != b {
      var x :| x in b && x !in a;
      assert a <= b - {x};
      SubsetSize(a, b - {x});
    }
  }

  lemma {:induction false} SubsetSize(a: set<string>, b: set<string>)
    requires a <= b
    ensures |a| <= |b|
    decreases a
  {
    if a != {} {
      var x :| x in a;
      SubsetSize(a - {x}, b - {x});
    }
  }

  /** Every inbound of either configuration has its equivalent under its tag in the other. */
  ghost predicate SameInbounds(former: seq<Inbound>, proposed: seq<Inbound>)
  {
    && Tags(former) == Tags(proposed)
    && forall i, j :: 0 <= i < |former| && 0 <= j < |proposed| && former[i].tag == proposed[j].tag ==>
         HotDifferenceOnly(former[i], proposed[j])
  }

  /** What the decision finds equal is equal but for what can be changed while running. */
  lemma EquivalentMeans(a: Inbound, b: Inbound)
    ensures Equivalent(a, b) <==> HotDifferenceOnly(a, b)
  {
    ComparesEqualExactly(a, b);
  }

  /** If the new tags are distinct, no restart is asked for exactly when the settings are the
      same, the inbounds are as many under the same tags, and under each tag equal but for
      sniffing and VLESS clients. */
  lemma NoRestartMeans(former: Config, proposed: Config)
    requires Distinct(proposed.inbounds)
    ensures NoRestart(former, proposed)
            <==> && SameSettings(former, proposed) && |former.inbounds| == |proposed.inbounds|
                 && SameInbounds(former.inbounds, proposed.inbounds)
  {
    var a, b := former.inbounds, proposed.inbounds;
    if NoRestart(former, proposed) {
      EveryTagStays(a, b);
      forall i, j | 0 <= i < |a| && 0 <= j < |b| && a[i].tag == b[j].tag ensures HotDifferenceOnly(a[i], b[j]) {
        var k: nat :| FoundAt(a, b[j].tag, k) && Equivalent(a[k], b[j]);
        assert a[k].tag == a[i].tag;
        assert k == i;
        EquivalentMeans(a[i], b[j]);
      }
    }
    if |a| == |b| && SameInbounds(a, b) {
      forall j | 0 <= j < |b| ensures Matched(a, b[j]) {
        assert b[j].tag in Tags(a);
        var i :| 0 <= i < |a| && a[i].tag == b[j].tag;
        var k := FirstWith(a, b[j].tag, i);
        EquivalentMeans(a[k], b[j]);
      }
    }
  }

  lemma {:induction false} FirstWith(inbounds: seq<Inbound>, tag: string, i: nat) returns (k: nat)
    requires i < |inbounds| && inbounds[i].tag == tag
    ensures FoundAt(inbounds, tag, k)
    decreases i
  {
    if j :| 0 <= j < i && inbounds[j].tag == tag {
      k := FirstWith(inbounds, tag, j);
    } else {
      k := i;
    }
  }

  /** Where each new inbound is found among the old, no old tag is missing exactly if the new
      ones have at least as many different tags. */
  lemma TagsStayExactly(a: seq<Inbound>, b: seq<Inbound>)
    requires forall j :: 0 <= j < |b| ==> Matched(a, b[j])
    ensures Tags(a) == Tags(b) <==> |Tags(a)| <= |Tags(b)|
  {
    forall t | t in Tags(b) ensures t in Tags(a) {
      var j :| 0 <= j < |b| && b[j].tag == t;
      assert Matched(a, b[j]);
    }
    if |Tags(a)| <= |Tags(b)| {
      SubsetOfEqualSize(Tags(b), Tags(a));
    }
  }

  /** As many, and distinct: then none is missing. */
  lemma EveryTagStays(a: seq<Inbound>, b: seq<Inbound>)
    requires Distinct(b) && |a| == |b| && forall j :: 0 <= j < |b| ==> Matched(a, b[j])
    ensures Tags(a) == Tags(b) && Distinct(a)
  {
    TagCount(a);
    TagCount(b);
    TagsStayExactly(a, b);
  }

  /** What "no restart" means for any two configurations: each new inbound is equal to the
      first old one of its tag but for sniffing and VLESS clients; and no inbound is gone
      exactly if the new tags are as many as the old. */
  lemma NoRestartInGeneral(former: Config, proposed: Config)
    requires NoRestart(former, proposed)
    ensures SameSettings(former, proposed)
    ensures forall j :: 0 <= j < |proposed.inbounds| ==>
              exists k: nat :: FoundAt(former.inbounds, proposed.inbounds[j].tag, k)
                               && HotDifferenceOnly(former.inbounds[k], proposed.inbounds[j])
    ensures Tags(former.inbounds) == Tags(proposed.inbounds) <==> |Tags(former.inbounds)| <= |Tags(proposed.inbounds)|
  {
    var a, b := former.inbounds, proposed.inbounds;
    forall j | 0 <= j < |b| ensures exists k: nat :: FoundAt(a, b[j].tag, k) && HotDifferenceOnly(a[k], b[j]) {
      assert Matched(a, b[j]);
      var k: nat :| FoundAt(a, b[j].tag, k) && Equivalent(a[k], b[j]);
      EquivalentMeans(a[k], b[j]);
    }
    TagsStayExactly(a, b);
  }

  /** With a tag repeated the answer can be "no" although an inbound is gone. */
  lemma RepeatedTagHidesRemoval(settings: Config, x: Inbound, y: Inbound)
    requires SameSettings(settings, settings) && x.tag != y.tag
    ensures var former, proposed := settings.(inbounds := [x, y]), settings.(inbounds := [x, x]);
            NoRestart(former, proposed) && y.tag in Tags(former.inbounds) && y.tag !in Tags(proposed.inbounds)
  {
    var former, proposed := settings.(inbounds := [x, y]), settings.(inbounds := [x, x]);
    assert FoundAt(former.inbounds, x.tag, 0) && Equivalent(former.inbounds[0], x);
    assert former.inbounds[1].tag == y.tag;
  }
}
