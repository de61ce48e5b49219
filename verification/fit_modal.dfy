/** `CandidateFitModal.tsx`: the pure parts of the detailed fit report —
    the split of certifications into required and optional lists with their
    status badges, the bench-status label, the confidence band of a skill row,
    and the three-tab switch. */
module FitModal {

  // ---------------------------------------------------------------------
  // Certifications
  // ---------------------------------------------------------------------

  datatype CertificationRow = CertificationRow(name: string, required: bool, held: bool)

  /** `certifications.filter(c => c.required)`. */
  function Required(cs: seq<CertificationRow>): (r: seq<CertificationRow>)
    ensures |r| <= |cs|
    ensures forall k :: 0 <= k < |r| ==> r[k].required
    decreases |cs|
  {
    if cs == [] then []
    else
      assert cs == [cs[0]] + cs[1..];
      (if cs[0].required then [cs[0]] else []) + Required(cs[1..])
  }

  /** `certifications.filter(c => !c.required)`. */
  function Optional(cs: seq<CertificationRow>): (r: seq<CertificationRow>)
    ensures |r| <= |cs|
    ensures forall k :: 0 <= k < |r| ==> !r[k].required
    decreases |cs|
  {
    if cs == [] then []
    else
      assert cs == [cs[0]] + cs[1..];
      (if cs[0].required then [] else [cs[0]]) + Optional(cs[1..])
  }

  /** The two lists split the certifications: together they hold every row
      exactly as often as the input does. */
  lemma {:induction false} PartitionMultiset(cs: seq<CertificationRow>)
    ensures multiset(Required(cs)) + multiset(Optional(cs)) == multiset(cs)
    decreases |cs|
  {
    if cs != [] {
      PartitionMultiset(cs[1..]);
      assert cs == [cs[0]] + cs[1..];
    }
  }

  /** Each certification is listed as required exactly when it is marked
      required, and as optional exactly when it is not. */
  lemma PartitionMembers(cs: seq<CertificationRow>, c: CertificationRow)
    ensures c in Required(cs) <==> c in cs && c.required
    ensures c in Optional(cs) <==> c in cs && !c.required
  {
    PartitionMultiset(cs);
    assert c in Required(cs) <==> c in multiset(Required(cs));
    assert c in Optional(cs) <==> c in multiset(Optional(cs));
  }

  /** Both filters keep input order: filtering a concatenation filters each
      part and concatenates the results. */
  lemma {:induction false} RequiredDistributes(a: seq<CertificationRow>, b: seq<CertificationRow>)
    ensures Required(a + b) == Required(a) + Required(b)
    decreases |a|
  {
    if a == [] {
      assert a + b == b;
    } else {
      var ab := a + b;
      assert ab[0] == a[0] && ab[1..] == a[1..] + b;
      RequiredDistributes(a[1..], b);
      var h := if a[0].required then [a[0]] else [];
      assert Required(ab) == h + Required(a[1..] + b);
      assert Required(a) == h + Required(a[1..]);
    }
  }

  lemma {:induction false} OptionalDistributes(a: seq<CertificationRow>, b: seq<CertificationRow>)
    ensures Optional(a + b) == Optional(a) + Optional(b)
    decreases |a|
  {
    if a == [] {
      assert a + b == b;
    } else {
      var ab := a + b;
      assert ab[0] == a[0] && ab[1..] == a[1..] + b;
      OptionalDistributes(a[1..], b);
      var h := if a[0].required then [] else [a[0]];
      assert Optional(ab) == h + Optional(a[1..] + b);
      assert Optional(a) == h + Optional(a[1..]);
    }
  }

  /** The status badge of a certification: a required one reads "Met" or
      "Missing", an optional one "Held" or "Not held". */
  function CertStatus(c: CertificationRow): (r: string)
    ensures c.required ==> (r == "Met" <==> c.held) && (r == "Missing" <==> !c.held)
    ensures !c.required ==> (r == "Held" <==> c.held) && (r == "Not held" <==> !c.held)
  {
    if c.required then (if c.held then "Met" else "Missing")
    else if c.held then "Held" else "Not held"
  }

  /** The two lists as rendered: name and badge per row. */
  function RequiredBadges(cs: seq<CertificationRow>): (r: seq<(string, string)>)
    ensures |r| == |Required(cs)|
    ensures forall k :: 0 <= k < |r| ==> r[k] == (Required(cs)[k].name, CertStatus(Required(cs)[k]))
  {
    var req := Required(cs);
    seq(|req|, k requires 0 <= k < |req| => (req[k].name, CertStatus(req[k])))
  }

  function OptionalBadges(cs: seq<CertificationRow>): (r: seq<(string, string)>)
    ensures |r| == |Optional(cs)|
    ensures forall k :: 0 <= k < |r| ==> r[k] == (Optional(cs)[k].name, CertStatus(Optional(cs)[k]))
  {
    var opt := Optional(cs);
    seq(|opt|, k requires 0 <= k < |opt| => (opt[k].name, CertStatus(opt[k])))
  }

  /** The number of rows of a list whose certification is held. */
  function HeldCount(cs: seq<CertificationRow>): nat
    decreases |cs|
  {
    if cs == [] then 0 else (if cs[0].held then 1 else 0) + HeldCount(cs[1..])
  }

  /** The number of "Met" badges. */
  function MetCount(badges: seq<(string, string)>): nat
    decreases |badges|
  {
    if badges == [] then 0 else (if badges[0].1 == "Met" then 1 else 0) + MetCount(badges[1..])
  }

  /** The report shows "Met" once per required certification held. */
  lemma {:induction false} MetCountsHeldRequired(cs: seq<CertificationRow>)
    ensures MetCount(RequiredBadges(cs)) == HeldCount(Required(cs))
  {
    var req := Required(cs);
    BadgesCount(req, RequiredBadges(cs));
  }

  lemma {:induction false} BadgesCount(req: seq<CertificationRow>, badges: seq<(string, string)>)
    requires |badges| == |req|
    requires forall k :: 0 <= k < |req| ==> req[k].required && badges[k].1 == CertStatus(req[k])
    ensures MetCount(badges) == HeldCount(req)
    decreases |req|
  {
    if req != [] {
      BadgesCount(req[1..], badges[1..]);
    }
  }

  // ---------------------------------------------------------------------
  // Bench status and confidence
  // ---------------------------------------------------------------------

  const BenchStatus: string := "Bench"
  const PartialStatus: string := "Partial"

  /** `benchLabel`: any status other than the two named ones, "Not Bench"
      included, reads as not on bench. */
  function BenchLabel(status: string): (r: string)
    ensures r == "Immediately available" <==> status == BenchStatus
    ensures r == "Partially allocated" <==> status == PartialStatus
    ensures r == "Not currently on bench" <==> status != BenchStatus && status != PartialStatus
  {
    if status == BenchStatus then "Immediately available"
    else if status == PartialStatus then "Partially allocated"
    else "Not currently on bench"
  }

  /** Thresholds of the confidence badge of a skill row. */
  const StrongFrom: real := 85.0
  const ModerateFrom: real := 60.0

  datatype Band = Strong | Moderate | Weak

  /** The badge colour: the component computes `strong` and `moderate` as
      two tests and picks the first that holds. */
  function ConfidenceBand(confidence: real): Band {
    var strong := confidence >= StrongFrom;
    var moderate := confidence >= ModerateFrom && confidence < StrongFrom;
    if strong then Strong else if moderate then Moderate else Weak
  }

  /** The two tests never both hold, so every confidence lands in exactly
      one band, and the bands are ordered by confidence. */
  lemma ConfidenceBandsExact(confidence: real)
    ensures ConfidenceBand(confidence) == Strong <==> confidence >= StrongFrom
    ensures ConfidenceBand(confidence) == Moderate <==> ModerateFrom <= confidence < StrongFrom
    ensures ConfidenceBand(confidence) == Weak <==> confidence < ModerateFrom
    ensures !(confidence >= StrongFrom && ModerateFrom <= confidence < StrongFrom)
  {
  }

  // ---------------------------------------------------------------------
  // Tabs
  // ---------------------------------------------------------------------

  datatype Tab = Summary | Skills | Certs

  /** The tab shown when the modal is first mounted. */
  const InitialTab: Tab := Summary

  /** The tab bodies rendered: one conditional block per tab, none while
      the modal is closed (the component returns `null`). */
  function Bodies(open: bool, active: Tab): seq<Tab> {
    var summary := if active == Summary then [Summary] else [];
    var skills := if active == Skills then [Skills] else [];
    var certs := if active == Certs then [Certs] else [];
    if open then summary + skills + certs else []
  }

  /** While open, exactly the active tab's body is rendered. */
  lemma ExactlyOneBody(open: bool, active: Tab)
    ensures open ==> Bodies(open, active) == [active]
    ensures !open ==> Bodies(open, active) == []
  {
  }
}
