/** The operating system as a set of named rules, and which names the features'
    wildcard removals match. */
module OsRules {
  import opened Text

  datatype Kind = QosPolicy | FirewallRule

  datatype Artifact = Artifact(kind: Kind, name: string)

  type Artifacts = set<Artifact>

  predicate Matches(a: Artifact, kind: Kind, prefix: string) {
    a.kind == kind && Like(a.name, prefix)
  }

  /** Get-... | Where-Object { $_.Name -like '<prefix>*' } | Remove-... */
  function Without(os: Artifacts, kind: Kind, prefix: string): Artifacts {
    set a | a in os && !Matches(a, kind, prefix)
  }

  class Os {
    var artifacts: Artifacts

    method Create(kind: Kind, name: string)
      modifies this
      ensures artifacts == old(artifacts) + {Artifact(kind, name)}
    {
      artifacts := artifacts + {Artifact(kind, name)};
    }

    method RemoveLike(kind: Kind, prefix: string)
      modifies this
      ensures artifacts == Without(old(artifacts), kind, prefix)
    {
      artifacts := set a | a in artifacts && !Matches(a, kind, prefix);
    }
  }

  // ----- selective degrade: PW_Sel_<id>_* and PW_SelQ_<id>_* -----

  /** uuid4().hex[:10] */
  predicate RuleId(id: string) {
    |id| == 10 && forall c | c in id :: '0' <= c <= '9' || 'a' <= c <= 'f'
  }

  function SelPrefix(kind: Kind): string {
    if kind == FirewallRule then "PW_Sel_" else "PW_SelQ_"
  }

  function SelName(kind: Kind, id: string, suffix: string): string {
    SelPrefix(kind) + id + "_" + suffix
  }

  /** The pattern of one rule matches that rule's names and no other's. */
  lemma SelMatchesOwn(kind: Kind, id: string, other: string, suffix: string)
    requires RuleId(id) && RuleId(other)
    ensures Like(SelName(kind, other, suffix), SelName(kind, id, "")) <==> other == id
  {
    var p := SelPrefix(kind);
    assert SelName(kind, other, suffix) == (p + other + "_") + suffix;
    assert SelName(kind, id, "") == (p + id + "_") + "";
    LikeSplit(p + other + "_", p + id + "_", suffix, "");
    LowerConcat(p + other, "_");
    LowerConcat(p + id, "_");
    LowerConcat(p, other);
    LowerConcat(p, id);
    LowerFixed(other);
    LowerFixed(id);
    if Lower(p + other + "_") == Lower(p + id + "_") {
      assert other == (Lower(p) + other + Lower("_"))[|p|..|p| + 10];
      assert id == (Lower(p) + id + Lower("_"))[|p|..|p| + 10];
    }
    assert Like(suffix, "") by {
      assert Lower("") == "";
    }
  }

  lemma SelHasPrefix(kind: Kind, id: string, suffix: string)
    ensures Like(SelName(kind, id, suffix), SelPrefix(kind))
    ensures Like(SelName(kind, id, suffix), "PW_")
  {
    var p := SelPrefix(kind);
    assert SelName(kind, id, suffix) == p + (id + "_" + suffix);
    LikeSelf(p, id + "_" + suffix);
    assert p == "PW_" + p[3..];
    assert p + (id + "_" + suffix) == "PW_" + (p[3..] + (id + "_" + suffix));
    LikeSelf("PW_", p[3..] + (id + "_" + suffix));
  }

  lemma LikeSelf(p: string, x: string)
    ensures Like(p + x, p)
  {
    LowerConcat(p, x);
  }

  // ----- priority switch: PW_<app>_* -----

  const APP_IDS := {"zoom", "teams", "google_meet", "youtube", "netflix", "twitch", "disney_plus",
                    "discord", "spotify", "google_chrome", "onedrive", "steam"}

  function SwitchName(app: string, suffix: string): string {
    "PW_" + app + "_" + suffix
  }

  /** No app's names look selective: none starts with "se". */
  lemma SwitchNotSelective(app: string, suffix: string, kind: Kind)
    requires app in APP_IDS
    ensures !Like(SwitchName(app, suffix), SelPrefix(kind))
    ensures Like(SwitchName(app, suffix), "PW_")
  {
    var n, p := SwitchName(app, suffix), SelPrefix(kind);
    assert n == "PW_" + (app + "_" + suffix);
    LikeSelf("PW_", app + "_" + suffix);
    assert |app| >= 2 && (LowerChar(app[0]) != 's' || LowerChar(app[1]) != 'e');
    assert n[3] == app[0] && n[4] == app[1] && p[3] == 'S' && p[4] == 'e';
    assert Lower(n)[3] == LowerChar(app[0]) && Lower(n)[4] == LowerChar(app[1]);
    assert Lower(p)[3] == 's' && Lower(p)[4] == 'e';
  }

  // ----- traffic shaper: PathWise-<app>-<n>* -----

  /** Keys of the shaper's app registry: lower-case letters and underscores. */
  predicate AppKey(app: string) {
    forall c | c in app :: 'a' <= c <= 'z' || c == '_'
  }

  function ShaperName(app: string, n: nat): string {
    "PathWise-" + (app + "-" + Decimal(n))
  }

  /** What the shaper appends to a policy name: nothing, or a part after a dash. */
  predicate ShaperSuffix(s: string) {
    s == "" || s[0] == '-'
  }

  /** The names of the three features. */
  lemma NamesAre()
    ensures SelName(FirewallRule, "0123456789", "TCP4") == "PW_Sel_0123456789_TCP4"
    ensures SelName(QosPolicy, "0123456789", "0") == "PW_SelQ_0123456789_0"
    ensures SwitchName("zoom", "proc") == "PW_zoom_proc"
    ensures ShaperName("zoom", 7) == "PathWise-zoom-7"
  {
    assert Decimal(7) == "7";
  }

  lemma DashCut(a: string, b: string, x: string, y: string)
    requires forall i | 0 <= i < |a| :: a[i] != '-'
    requires forall i | 0 <= i < |b| :: b[i] != '-'
    ensures a + "-" + x <= b + "-" + y <==> a == b && x <= y
  {
    var s, t := a + "-" + x, b + "-" + y;
    assert s[|a|] == '-' && t[|b|] == '-';
    assert forall i | 0 <= i < |a| :: s[i] == a[i];
    assert forall i | 0 <= i < |b| :: t[i] == b[i];
    if s <= t {
      assert |a| == |b|;
      assert a == s[..|a|] == t[..|b|] == b;
      assert x == s[|a| + 1..] && y == t[|b| + 1..];
    }
    if a == b && x <= y {
      assert t == s + y[|x|..];
    }
  }

  lemma DigitsCut(d: string, e: string, suffix: string)
    requires forall i | 0 <= i < |d| :: '0' <= d[i] <= '9'
    requires ShaperSuffix(suffix)
    ensures d <= e + suffix <==> d <= e
  {
    var whole := e + suffix;
    assert suffix != "" ==> whole[|e|] == suffix[0];
    assert d <= whole ==> forall i | 0 <= i < |d| :: d[i] == whole[i];
    if d <= whole {
      assert |d| <= |e|;
      assert d == whole[..|d|] == e[..|d|];
    }
    if d <= e {
      assert (e + suffix)[..|d|] == e[..|d|];
    }
  }

  lemma DecimalLower(n: nat)
    ensures Lower(Decimal(n)) == Decimal(n)
  {
    LowerFixed(Decimal(n));
  }

  /** Removing policy n of an app reaches the rules of exactly those policies of that
      app whose number extends n, whatever suffix a rule has. */
  lemma ShaperMatches(app: string, n: nat, other: string, m: nat, suffix: string)
    requires AppKey(app) && AppKey(other) && ShaperSuffix(suffix)
    ensures Like(ShaperName(other, m) + suffix, ShaperName(app, n)) <==> other == app && Extends(m, n)
  {
    var dm, dn := Decimal(m), Decimal(n);
    var rest, prefix := other + "-" + (dm + suffix), app + "-" + dn;
    assert ShaperName(other, m) + suffix == "PathWise-" + rest;
    LikeSplit("PathWise-", "PathWise-", rest, prefix);
    LowerRest(app, n, "");
    LowerRest(other, m, suffix);
    assert app + "-" + (dn + "") == prefix;
    assert Lower("") == "" && dn + "" == dn;
    assert forall i | 0 <= i < |app| :: app[i] in app;
    assert forall i | 0 <= i < |other| :: other[i] in other;
    DashCut(app, other, dn, dm + Lower(suffix));
    assert ShaperSuffix(Lower(suffix));
    DigitsCut(dn, dm, Lower(suffix));
    PrefixIffExtends(m, n);
  }

  lemma LowerRest(app: string, n: nat, suffix: string)
    requires AppKey(app)
    ensures Lower(app + "-" + (Decimal(n) + suffix)) == app + "-" + (Decimal(n) + Lower(suffix))
  {
    LowerConcat(app + "-", Decimal(n) + suffix);
    LowerConcat(app, "-");
    LowerConcat(Decimal(n), suffix);
    LowerFixed(app);
    DecimalLower(n);
    LowerFixed("-");
  }

  /** The shaper's names and the PW_ features' names never match each other's
      patterns. */
  lemma ShaperApart(name: string, pattern: string)
    ensures Like(name, "PathWise-") ==> !Like(name, "PW_")
    ensures Like(pattern, "PathWise-") && Like(name, "PW_") ==> !Like(name, pattern)
    ensures Like(pattern, "PW_") && Like(name, "PathWise-") ==> !Like(name, pattern)
  {
    assert Lower("PathWise-")[1] == 'a' && Lower("PW_")[1] == 'w';
    assert Like(name, "PathWise-") ==> Lower(name)[1] == 'a';
    assert Like(name, "PW_") ==> Lower(name)[1] == 'w';
    assert Like(pattern, "PathWise-") ==> Lower(pattern)[1] == 'a';
    assert Like(pattern, "PW_") ==> Lower(pattern)[1] == 'w';
  }
}
