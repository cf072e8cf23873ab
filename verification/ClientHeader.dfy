/** The `x-tr-client` header: what one attempt tells the gateway about the call. */
module ClientHeader {
  import opened Basics
  import opened Vocabulary
  import opened RecorderSpec
  import opened RecorderRuns
  import opened Text

  const MAX_HEADER_BYTES: nat := 160

  type Pair = (string, string)

  function HostText(h: Host): string {
    match h
    case Apex => "apex"
    case Ally => "ally"
    case Uptime => "uptime"
    case UsCentral1 => "us_central1"
    case UsEast4 => "us_east4"
    case EuropeWest4 => "europe_west4"
    case Control => "control"
    case Custom => "custom"
  }

  function OutcomeText(o: AttemptOutcome): string {
    match o
    case Ok => "ok"
    case HttpError => "http_error"
    case TransportError => "transport_error"
    case Timeout => "timeout"
    case StreamBroken => "stream_broken"
    case Aborted => "aborted"
  }

  function ClassText(c: ErrorClass): string {
    match c
    case Dns => "dns"
    case Tls => "tls"
    case ConnectRefused => "connect_refused"
    case ConnectTimeout => "connect_timeout"
    case ConnectError => "connect_error"
    case ReadTimeout => "read_timeout"
    case WriteTimeout => "write_timeout"
    case PoolTimeout => "pool_timeout"
    case ProtocolError => "protocol_error"
    case Reset => "reset"
    case IoError => "io_error"
    case ProxyError => "proxy_error"
    case StreamStalled => "stream_stalled"
    case Unknown => "unknown"
  }

  function Decimal(n: nat): string {
    if n < 10 then [('0' as int + n) as char] else Decimal(n / 10) + [('0' as int + n % 10) as char]
  }

  function Flag(b: bool): string {
    if b then "1" else "0"
  }

  // ---- Assembly ----

  predicate ValidChar(c: char) {
    'a' <= c <= 'z' || '0' <= c <= '9' || c == '_'
  }

  predicate ValidValue(v: string) {
    0 < |v| <= 24 && forall c :: c in v ==> ValidChar(c)
  }

  function PairText(p: Pair): string {
    p.0 + "=" + p.1
  }

  function PairTexts(pairs: seq<Pair>): seq<string> {
    seq(|pairs|, i requires 0 <= i < |pairs| => PairText(pairs[i]))
  }

  /** Joins the pairs, unless a value is out of grammar or the whole too long. */
  function FinalizeHeader(pairs: seq<Pair>): Option<string> {
    if !(forall i :: 0 <= i < |pairs| ==> ValidValue(pairs[i].1)) then None
    else
      var header := Join(PairTexts(pairs), ';');
      if |header| > MAX_HEADER_BYTES then None else Some(header)
  }

  /** Previous outcome and error class; there is no word for "ok" or "aborted". */
  function OutcomePair(a: AttemptRecord): (string, string) {
    if a.outcome == Ok || a.outcome == Aborted then ("none", "none")
    else (OutcomeText(a.outcome), if a.errorClass.Some? then ClassText(a.errorClass.value) else "none")
  }

  function FirstPairs(index: nat, streaming: bool): seq<Pair> {
    [("v", "1"), ("a", Decimal(index)), ("s", Flag(streaming))]
  }

  function RetryPairs(index: nat, previous: AttemptRecord, sm: nat, streaming: bool, failoverUsed: bool): seq<Pair> {
    var (po, pc) := OutcomePair(previous);
    [("v", "1"), ("a", Decimal(index)), ("po", po), ("pc", pc), ("ph", HostText(previous.host)),
     ("pm", Decimal(previous.elapsedMs)), ("sm", Decimal(sm)), ("s", Flag(streaming)), ("fo", Flag(failoverUsed))]
  }

  /** The header of the attempt in flight, if it carries one. */
  function HeaderValue(r: Rec, streaming: bool): Option<string> {
    if r.currentIndex.None? || r.currentIndex.value > 99 || r.currentHost.None? || r.currentHost.value == Custom then None
    else if r.currentIndex.value == 0 then FinalizeHeader(FirstPairs(0, streaming))
    else if r.attempts == [] || r.attemptStarted.None? then None
    else
      var first := if r.firstStarted.Some? then r.firstStarted.value else r.attemptStarted.value;
      FinalizeHeader(RetryPairs(
        r.currentIndex.value, r.attempts[|r.attempts| - 1], DurationMs(first, r.attemptStarted.value),
        streaming, r.failoverUsed))
  }

  // ---- Numbers and words ----

  function DigitValue(c: char): int {
    c as int - '0' as int
  }

  function Parse(s: string): int {
    if s == [] then 0 else 10 * Parse(s[..|s| - 1]) + DigitValue(s[|s| - 1])
  }

  lemma {:induction false} ParseDecimal(n: nat)
    ensures Parse(Decimal(n)) == n
  {
    if n >= 10 {
      ParseDecimal(n / 10);
      assert Decimal(n)[..|Decimal(n)| - 1] == Decimal(n / 10);
    } else {
      assert Decimal(n)[..0] == [];
      assert Parse([]) == 0;
    }
  }

  lemma {:induction false} DecimalValid(n: nat, digits: nat)
    requires 0 < digits <= 24 && n < Pow10(digits)
    ensures ValidValue(Decimal(n)) && |Decimal(n)| <= digits
  {
    if n >= 10 {
      DecimalValid(n / 10, digits - 1);
    }
  }

  lemma {:induction false} HostTextValid(h: Host)
    ensures ValidValue(HostText(h)) && |HostText(h)| <= 12
  {
  }

  lemma {:induction false} OutcomeTextValid(o: AttemptOutcome)
    ensures ValidValue(OutcomeText(o)) && |OutcomeText(o)| <= 15
  {
  }

  predicate IsTimeout(c: ErrorClass) {
    c.ConnectTimeout? || c.ReadTimeout? || c.WriteTimeout? || c.PoolTimeout?
  }

  predicate IsError(c: ErrorClass) {
    c.ConnectError? || c.ProtocolError? || c.IoError? || c.ProxyError?
  }

  lemma {:induction false} TimeoutTextValid(c: ErrorClass)
    requires IsTimeout(c)
    ensures ValidValue(ClassText(c)) && |ClassText(c)| <= 15
  {
  }

  lemma {:induction false} ErrorTextValid(c: ErrorClass)
    requires IsError(c)
    ensures ValidValue(ClassText(c)) && |ClassText(c)| <= 15
  {
  }

  lemma {:induction false} OtherTextValid(c: ErrorClass)
    requires !IsTimeout(c) && !IsError(c)
    ensures ValidValue(ClassText(c)) && |ClassText(c)| <= 15
  {
  }

  lemma {:induction false} ClassTextValid(c: ErrorClass)
    ensures ValidValue(ClassText(c)) && |ClassText(c)| <= 15
  {
    if IsTimeout(c) {
      TimeoutTextValid(c);
    } else if IsError(c) {
      ErrorTextValid(c);
    } else {
      OtherTextValid(c);
    }
  }

  lemma {:induction false} FixedTextValid(b: bool)
    ensures ValidValue("none") && ValidValue("1") && ValidValue(Flag(b)) && |Flag(b)| == 1
  {
  }

  // ---- The guard never fires ----

  lemma {:induction false} JoinLength(parts: seq<string>, sep: char, bound: nat)
    requires forall p :: p in parts ==> |p| <= bound
    ensures |Join(parts, sep)| <= |parts| * (bound + 1)
  {
    if parts != [] {
      assert parts[0] in parts;
      JoinLength(parts[1..], sep, bound);
      assert |parts| * (bound + 1) == (bound + 1) + (|parts| - 1) * (bound + 1);
    }
  }

  lemma {:induction false} OutcomePairValid(a: AttemptRecord)
    ensures var (po, pc) := OutcomePair(a);
            ValidValue(po) && |po| <= 15 && ValidValue(pc) && |pc| <= 15
  {
    FixedTextValid(true);
    OutcomeTextValid(a.outcome);
    if a.errorClass.Some? {
      ClassTextValid(a.errorClass.value);
    }
  }

  lemma {:induction false} NumbersValid(index: nat, pm: nat, sm: nat)
    requires index <= 99 && pm <= MAX_DURATION_MS && sm <= MAX_DURATION_MS
    ensures ValidValue(Decimal(index)) && |Decimal(index)| <= 2
    ensures ValidValue(Decimal(pm)) && |Decimal(pm)| <= 7
    ensures ValidValue(Decimal(sm)) && |Decimal(sm)| <= 7
  {
    assert Pow10(2) == 100;
    assert Pow10(7) == 10 * 10 * 10 * 10 * 10 * Pow10(2);
    DecimalValid(index, 2);
    DecimalValid(pm, 7);
    DecimalValid(sm, 7);
  }

  /** Every value of a retry header is in grammar, and the first five pairs stay
      within 18 bytes, the last four within 10. */
  lemma {:induction false} RetryPairsSmall(
    index: nat, previous: AttemptRecord, sm: nat, streaming: bool, failoverUsed: bool)
    requires index <= 99 && previous.elapsedMs <= MAX_DURATION_MS && sm <= MAX_DURATION_MS
    ensures var ps := RetryPairs(index, previous, sm, streaming, failoverUsed);
            && (forall i :: 0 <= i < 9 ==> ValidValue(ps[i].1))
            && (forall i :: 0 <= i < 5 ==> |PairText(ps[i])| <= 18)
            && (forall i :: 5 <= i < 9 ==> |PairText(ps[i])| <= 10)
  {
    OutcomePairValid(previous);
    NumbersValid(index, previous.elapsedMs, sm);
    HostTextValid(previous.host);
    FixedTextValid(streaming);
    FixedTextValid(failoverUsed);
  }

  lemma {:induction false} NineFit(pairs: seq<Pair>)
    requires |pairs| == 9
    requires forall i :: 0 <= i < 5 ==> |PairText(pairs[i])| <= 18
    requires forall i :: 5 <= i < 9 ==> |PairText(pairs[i])| <= 10
    ensures |Join(PairTexts(pairs), ';')| <= MAX_HEADER_BYTES
  {
    var texts := PairTexts(pairs);
    assert texts == texts[..5] + texts[5..];
    JoinConcat(texts[..5], texts[5..], ';');
    JoinLength(texts[..5], ';', 18);
    JoinLength(texts[5..], ';', 10);
  }

  lemma {:induction false} ThreeFit(pairs: seq<Pair>)
    requires |pairs| == 3 && forall i :: 0 <= i < 3 ==> |PairText(pairs[i])| <= 18
    ensures |Join(PairTexts(pairs), ';')| <= MAX_HEADER_BYTES
  {
    JoinLength(PairTexts(pairs), ';', 18);
  }

  /** The pairs a header of the attempt in flight is made of. */
  function HeaderPairs(r: Rec, streaming: bool): seq<Pair>
    requires WellKept(r) && r.currentIndex.Some?
  {
    if r.currentIndex.value == 0 then FirstPairs(0, streaming)
    else
      RetryPairs(r.currentIndex.value, r.attempts[|r.attempts| - 1],
                 DurationMs(r.firstStarted.value, r.attemptStarted.value), streaming, r.failoverUsed)
  }

  /** Neither the grammar nor the size guard objects to these pairs. */
  predicate Fit(pairs: seq<Pair>) {
    && (forall i :: 0 <= i < |pairs| ==> ValidValue(pairs[i].1))
    && |Join(PairTexts(pairs), ';')| <= MAX_HEADER_BYTES
  }

  lemma {:induction false} FitFinalizes(pairs: seq<Pair>)
    requires Fit(pairs)
    ensures FinalizeHeader(pairs) == Some(Join(PairTexts(pairs), ';'))
  {
  }

  lemma {:induction false} FirstFits(streaming: bool)
    ensures Fit(FirstPairs(0, streaming))
  {
    FixedTextValid(streaming);
    NumbersValid(0, 0, 0);
    ThreeFit(FirstPairs(0, streaming));
  }

  lemma {:induction false} RetryFits(
    index: nat, previous: AttemptRecord, sm: nat, streaming: bool, failoverUsed: bool)
    requires index <= 99 && previous.elapsedMs <= MAX_DURATION_MS && sm <= MAX_DURATION_MS
    ensures Fit(RetryPairs(index, previous, sm, streaming, failoverUsed))
  {
    RetryPairsSmall(index, previous, sm, streaming, failoverUsed);
    NineFit(RetryPairs(index, previous, sm, streaming, failoverUsed));
  }

  lemma {:induction false} HeaderIsPairs(r: Rec, streaming: bool)
    requires WellKept(r) && r.currentIndex.Some? && r.currentIndex.value <= 99 && r.currentHost.value != Custom
    ensures HeaderValue(r, streaming) == FinalizeHeader(HeaderPairs(r, streaming))
  {
  }

  lemma {:induction false} PairsFinalize(r: Rec, streaming: bool)
    requires WellKept(r) && r.currentIndex.Some? && r.currentIndex.value <= 99
    ensures FinalizeHeader(HeaderPairs(r, streaming)) == Some(Join(PairTexts(HeaderPairs(r, streaming)), ';'))
  {
    PairsFit(r, streaming);
    FitFinalizes(HeaderPairs(r, streaming));
  }

  lemma {:induction false} PairsFit(r: Rec, streaming: bool)
    requires WellKept(r) && r.currentIndex.Some? && r.currentIndex.value <= 99
    ensures Fit(HeaderPairs(r, streaming))
  {
    if r.currentIndex.value == 0 {
      FirstFits(streaming);
    } else {
      var previous := r.attempts[|r.attempts| - 1];
      var sm := DurationMs(r.firstStarted.value, r.attemptStarted.value);
      RetryFits(r.currentIndex.value, previous, sm, streaming, r.failoverUsed);
      EqualFits(HeaderPairs(r, streaming), RetryPairs(r.currentIndex.value, previous, sm, streaming, r.failoverUsed));
    }
  }

  lemma {:induction false} EqualFits(ps: seq<Pair>, qs: seq<Pair>)
    requires ps == qs && Fit(qs)
    ensures Fit(ps)
  {
  }

  /** In every reachable recorder state a header exists iff the attempt index is at
      most 99 and the host is not custom: neither the grammar nor the 160-byte guard
      ever suppresses one. */
  lemma {:induction false} HeaderExistsIff(r: Rec, streaming: bool)
    requires WellKept(r)
    ensures HeaderValue(r, streaming).Some?
            <==> r.currentIndex.Some? && r.currentIndex.value <= 99 && r.currentHost.value != Custom
    ensures HeaderValue(r, streaming).Some? ==>
              HeaderValue(r, streaming).value == Join(PairTexts(HeaderPairs(r, streaming)), ';')
  {
    if r.currentIndex.Some? && r.currentIndex.value <= 99 && r.currentHost.value != Custom {
      HeaderIsPairs(r, streaming);
      PairsFinalize(r, streaming);
    }
  }

  // ---- Reading it back ----

  /** Fields are split on `;`, then each on `=`. */
  function ParseHeader(header: string): seq<seq<string>> {
    var fields := Split(header, ';');
    seq(|fields|, i requires 0 <= i < |fields| => Split(fields[i], '='))
  }

  predicate Clean(p: Pair) {
    ';' !in p.0 && '=' !in p.0 && ';' !in p.1 && '=' !in p.1
  }

  lemma {:induction false} SplitPair(p: Pair)
    requires Clean(p)
    ensures Split(PairText(p), '=') == [p.0, p.1] && Free(PairText(p), ';')
  {
    SplitFree(p.0, '=');
    SplitFree(p.1, '=');
    SplitConcat(p.0, '=', p.1);
  }

  lemma {:induction false} ParseJoined(pairs: seq<Pair>)
    requires pairs != [] && forall i :: 0 <= i < |pairs| ==> Clean(pairs[i])
    ensures ParseHeader(Join(PairTexts(pairs), ';')) == seq(|pairs|, i requires 0 <= i < |pairs| => [pairs[i].0, pairs[i].1])
  {
    var texts := PairTexts(pairs);
    forall i | 0 <= i < |pairs| ensures Free(texts[i], ';') && Split(texts[i], '=') == [pairs[i].0, pairs[i].1] {
      SplitPair(pairs[i]);
    }
    SplitJoin(texts, ';');
  }

  lemma {:induction false} ValidIsClean(k: string, v: string)
    requires ValidValue(v) && ';' !in k && '=' !in k
    ensures Clean((k, v))
  {
    assert !ValidChar(';') && !ValidChar('=');
  }

  lemma {:induction false} HeaderPairsClean(r: Rec, streaming: bool)
    requires WellKept(r) && HeaderValue(r, streaming).Some?
    ensures forall i :: 0 <= i < |HeaderPairs(r, streaming)| ==> Clean(HeaderPairs(r, streaming)[i])
  {
    HeaderExistsIff(r, streaming);
    PairsFit(r, streaming);
    HeaderKeysClean(r, streaming);
    FitIsClean(HeaderPairs(r, streaming));
  }

  predicate CleanKeys(pairs: seq<Pair>) {
    forall i :: 0 <= i < |pairs| ==> ';' !in pairs[i].0 && '=' !in pairs[i].0
  }

  lemma {:induction false} HeaderKeysClean(r: Rec, streaming: bool)
    requires WellKept(r) && r.currentIndex.Some?
    ensures CleanKeys(HeaderPairs(r, streaming))
  {
    if r.currentIndex.value > 0 {
      var ps := HeaderPairs(r, streaming);
      RetryKeysClean(ps[0].1, ps[1].1, ps[2].1, ps[3].1, ps[4].1, ps[5].1, ps[6].1, ps[7].1, ps[8].1);
    }
  }

  lemma {:induction false} RetryKeysClean(
    v: string, a: string, po: string, pc: string, ph: string, pm: string, sm: string, s: string, fo: string)
    ensures CleanKeys([("v", v), ("a", a), ("po", po), ("pc", pc), ("ph", ph), ("pm", pm), ("sm", sm), ("s", s),
                       ("fo", fo)])
  {
  }

  lemma {:induction false} FitIsClean(pairs: seq<Pair>)
    requires Fit(pairs) && CleanKeys(pairs)
    ensures forall i :: 0 <= i < |pairs| ==> Clean(pairs[i])
  {
    forall i | 0 <= i < |pairs| ensures Clean(pairs[i]) {
      ValidIsClean(pairs[i].0, pairs[i].1);
    }
  }

  /** Splitting a header recovers every key and value it was built from. */
  lemma {:induction false} HeaderRoundTrip(r: Rec, streaming: bool)
    requires WellKept(r) && HeaderValue(r, streaming).Some?
    ensures var ps := HeaderPairs(r, streaming);
            ParseHeader(HeaderValue(r, streaming).value)
            == seq(|ps|, i requires 0 <= i < |ps| => [ps[i].0, ps[i].1])
  {
    HeaderExistsIff(r, streaming);
    HeaderPairsClean(r, streaming);
    ParseJoined(HeaderPairs(r, streaming));
  }

  // ---- Injectivity ----

  function HostOf(t: string): Option<Host> {
    if t == "apex" then Some(Apex) else if t == "ally" then Some(Ally) else if t == "uptime" then Some(Uptime)
    else if t == "us_central1" then Some(UsCentral1) else if t == "us_east4" then Some(UsEast4)
    else if t == "europe_west4" then Some(EuropeWest4) else if t == "control" then Some(Control)
    else if t == "custom" then Some(Custom) else None
  }

  lemma {:induction false} HostOfText(h: Host)
    ensures HostOf(HostText(h)) == Some(h)
  {
    assert "apex"[1] == 'p' && "ally"[1] == 'l';
    assert "us_central1"[3] == 'c' && "us_east4"[3] == 'e';
    assert "uptime"[0] == 'u' && "custom"[0] == 'c';
  }

  function OutcomeOf(t: string): Option<AttemptOutcome> {
    if t == "http_error" then Some(HttpError) else if t == "transport_error" then Some(TransportError)
    else if t == "timeout" then Some(Timeout) else if t == "stream_broken" then Some(StreamBroken) else None
  }

  /** Attempts whose outcome has no word: the header says "none" for both facts. */
  predicate Silent(a: AttemptRecord) {
    a.outcome == Ok || a.outcome == Aborted
  }

  lemma {:induction false} OutcomeOfText(a: AttemptRecord)
    ensures OutcomeOf(OutcomePair(a).0) == if Silent(a) then None else Some(a.outcome)
  {
  }

  function ClassOf(t: string): Option<ErrorClass> {
    if t == "dns" then Some(Dns) else if t == "tls" then Some(Tls)
    else if t == "connect_refused" then Some(ConnectRefused) else if t == "connect_timeout" then Some(ConnectTimeout)
    else if t == "connect_error" then Some(ConnectError) else if t == "read_timeout" then Some(ReadTimeout)
    else if t == "write_timeout" then Some(WriteTimeout) else if t == "pool_timeout" then Some(PoolTimeout)
    else if t == "protocol_error" then Some(ProtocolError) else if t == "reset" then Some(Reset)
    else if t == "io_error" then Some(IoError) else if t == "proxy_error" then Some(ProxyError)
    else if t == "stream_stalled" then Some(StreamStalled) else if t == "unknown" then Some(Unknown) else None
  }

  lemma {:induction false} ClassOfText(c: ErrorClass)
    ensures ClassOf(ClassText(c)) == Some(c)
  {
    assert "dns"[0] == 'd' && "tls"[0] == 't' && "unknown"[0] == 'u';
    assert "connect_refused"[8] == 'r' && "connect_timeout"[8] == 't';
    assert "connect_error"[0] == 'c' && "write_timeout"[0] == 'w';
    assert "read_timeout"[0] == 'r' && "pool_timeout"[0] == 'p';
    assert "protocol_error"[0] == 'p' && "stream_stalled"[0] == 's';
  }

  lemma {:induction false} OutcomePairInjective(a: AttemptRecord, b: AttemptRecord)
    requires OutcomePair(a) == OutcomePair(b)
    ensures Silent(a) == Silent(b)
    ensures !Silent(a) ==> a.outcome == b.outcome && a.errorClass == b.errorClass
  {
    OutcomeOfText(a);
    OutcomeOfText(b);
    assert ClassOf("none") == None;
    if a.errorClass.Some? { ClassOfText(a.errorClass.value); }
    if b.errorClass.Some? { ClassOfText(b.errorClass.value); }
  }

  lemma {:induction false} DecimalInjective(a: nat, b: nat)
    requires Decimal(a) == Decimal(b)
    ensures a == b
  {
    ParseDecimal(a);
    ParseDecimal(b);
  }

  /** Two attempts with the same header tell the same story: index, streaming and,
      after a retry, the previous attempt's facts, both times and the failover bit. */
  lemma {:induction false} HeaderInjective(r: Rec, streaming: bool, r': Rec, streaming': bool)
    requires WellKept(r) && WellKept(r')
    requires HeaderValue(r, streaming).Some? && HeaderValue(r, streaming) == HeaderValue(r', streaming')
    ensures r.currentIndex == r'.currentIndex && streaming == streaming'
    ensures r.currentIndex.value > 0 ==>
              var p, p' := r.attempts[|r.attempts| - 1], r'.attempts[|r'.attempts| - 1];
              && p.host == p'.host && p.elapsedMs == p'.elapsedMs
              && Silent(p) == Silent(p') && (!Silent(p) ==> p.outcome == p'.outcome && p.errorClass == p'.errorClass)
              && DurationMs(r.firstStarted.value, r.attemptStarted.value)
                 == DurationMs(r'.firstStarted.value, r'.attemptStarted.value)
              && r.failoverUsed == r'.failoverUsed
  {
    HeaderExistsIff(r, streaming);
    HeaderExistsIff(r', streaming');
    HeaderRoundTrip(r, streaming);
    HeaderRoundTrip(r', streaming');
    SamePairs(HeaderPairs(r, streaming), HeaderPairs(r', streaming'));
    DecimalInjective(r.currentIndex.value, r'.currentIndex.value);
    if r.currentIndex.value > 0 {
      RetryPairsInjective(
        r.currentIndex.value, r.attempts[|r.attempts| - 1], DurationMs(r.firstStarted.value, r.attemptStarted.value),
        streaming, r.failoverUsed,
        r'.attempts[|r'.attempts| - 1], DurationMs(r'.firstStarted.value, r'.attemptStarted.value),
        streaming', r'.failoverUsed);
    }
  }

  lemma {:induction false} SamePairs(ps: seq<Pair>, qs: seq<Pair>)
    requires |ps| >= 3 && |qs| >= 3
    requires seq(|ps|, i requires 0 <= i < |ps| => [ps[i].0, ps[i].1])
             == seq(|qs|, i requires 0 <= i < |qs| => [qs[i].0, qs[i].1])
    ensures ps == qs
  {
    var p := seq(|ps|, i requires 0 <= i < |ps| => [ps[i].0, ps[i].1]);
    var q := seq(|qs|, i requires 0 <= i < |qs| => [qs[i].0, qs[i].1]);
    assert |p| == |ps| && |q| == |qs|;
    forall i | 0 <= i < |ps| ensures ps[i] == qs[i] {
      assert p[i] == [ps[i].0, ps[i].1] && q[i] == [qs[i].0, qs[i].1];
      assert p[i][0] == q[i][0] && p[i][1] == q[i][1];
    }
  }

  lemma {:induction false} RetryPairsInjective(
    index: nat, p: AttemptRecord, sm: nat, s: bool, fo: bool, p': AttemptRecord, sm': nat, s': bool, fo': bool)
    requires RetryPairs(index, p, sm, s, fo) == RetryPairs(index, p', sm', s', fo')
    ensures p.host == p'.host && p.elapsedMs == p'.elapsedMs && sm == sm' && s == s' && fo == fo'
    ensures Silent(p) == Silent(p')
    ensures !Silent(p) ==> p.outcome == p'.outcome && p.errorClass == p'.errorClass
  {
    var ps, qs := RetryPairs(index, p, sm, s, fo), RetryPairs(index, p', sm', s', fo');
    assert ps[2].1 == qs[2].1 && ps[3].1 == qs[3].1 && ps[4].1 == qs[4].1 && ps[5].1 == qs[5].1;
    assert ps[6].1 == qs[6].1 && ps[7].1 == qs[7].1 && ps[8].1 == qs[8].1;
    OutcomePairInjective(p, p');
    HostOfText(p.host);
    HostOfText(p'.host);
    DecimalInjective(p.elapsedMs, p'.elapsedMs);
    DecimalInjective(sm, sm');
    assert Flag(s)[0] == Flag(s')[0] && Flag(fo)[0] == Flag(fo')[0];
  }

  // ---- What a reader of the header learns ----

  /** Field `i` of a header read back: its key and its value. */
  predicate FieldIs(fields: seq<seq<string>>, i: nat, key: string, value: string) {
    i < |fields| && fields[i] == [key, value]
  }

  predicate NumberIs(fields: seq<seq<string>>, i: nat, key: string, n: nat) {
    i < |fields| && |fields[i]| == 2 && fields[i][0] == key && Parse(fields[i][1]) == n
  }

  /** Outcome and error class of an attempt in words; a success or an abort has none. */
  predicate WordsTell(fields: seq<seq<string>>, a: AttemptRecord) {
    && |fields| >= 4 && |fields[2]| == 2 && |fields[3]| == 2 && fields[2][0] == "po" && fields[3][0] == "pc"
    && (if a.outcome == Ok || a.outcome == Aborted then fields[2][1] == "none" && fields[3][1] == "none"
        else
          && OutcomeOf(fields[2][1]) == Some(a.outcome)
          && (if a.errorClass == None then fields[3][1] == "none" else ClassOf(fields[3][1]) == a.errorClass))
  }

  predicate HostTold(fields: seq<seq<string>>, host: Host) {
    |fields| >= 5 && |fields[4]| == 2 && fields[4][0] == "ph" && HostOf(fields[4][1]) == Some(host)
  }

  /** The fields of a retry's header, about the attempt before it. */
  predicate RetryTold(
    fields: seq<seq<string>>, previous: AttemptRecord, sinceMs: nat, streaming: bool, failoverUsed: bool)
  {
    && |fields| == 9 && WordsTell(fields, previous) && HostTold(fields, previous.host)
    && NumberIs(fields, 5, "pm", previous.elapsedMs) && NumberIs(fields, 6, "sm", sinceMs)
    && FieldIs(fields, 7, "s", if streaming then "1" else "0")
    && FieldIs(fields, 8, "fo", if failoverUsed then "1" else "0")
  }

  lemma {:induction false} RetryPairsTell(
    index: nat, previous: AttemptRecord, sm: nat, streaming: bool, failoverUsed: bool, fields: seq<seq<string>>)
    requires var ps := RetryPairs(index, previous, sm, streaming, failoverUsed);
             |fields| == 9 && forall i :: 0 <= i < 9 ==> fields[i] == [ps[i].0, ps[i].1]
    ensures NumberIs(fields, 1, "a", index) && FieldIs(fields, 0, "v", "1")
    ensures RetryTold(fields, previous, sm, streaming, failoverUsed)
  {
    ParseDecimal(index);
    ParseDecimal(previous.elapsedMs);
    ParseDecimal(sm);
    OutcomeOfText(previous);
    HostOfText(previous.host);
    if previous.errorClass.Some? {
      ClassOfText(previous.errorClass.value);
    }
  }

  /** A header tells its reader the index of the attempt and whether it streams; a
      retry's also how, where and after how many milliseconds the attempt before it
      ended, how many have passed since the call began, and whether it failed over. */
  lemma {:induction false} HeaderTells(r: Rec, streaming: bool)
    requires WellKept(r) && HeaderValue(r, streaming).Some?
    ensures r.currentIndex.Some? && r.attemptStarted.Some? && r.firstStarted.Some?
    ensures var fields, k := ParseHeader(HeaderValue(r, streaming).value), r.currentIndex.value;
            && FieldIs(fields, 0, "v", "1") && NumberIs(fields, 1, "a", k)
            && (k == 0 ==> |fields| == 3 && FieldIs(fields, 2, "s", if streaming then "1" else "0"))
            && (k > 0 ==>
                  && r.attempts != []
                  && RetryTold(fields, r.attempts[|r.attempts| - 1],
                               Min(Max(r.attemptStarted.value - r.firstStarted.value, 0), 3_600_000),
                               streaming, r.failoverUsed))
  {
    HeaderExistsIff(r, streaming);
    HeaderRoundTrip(r, streaming);
    var fields, k := ParseHeader(HeaderValue(r, streaming).value), r.currentIndex.value;
    if k == 0 {
      ParseDecimal(0);
    } else {
      RetryPairsTell(k, r.attempts[|r.attempts| - 1], DurationMs(r.firstStarted.value, r.attemptStarted.value),
                     streaming, r.failoverUsed, fields);
    }
  }
}
