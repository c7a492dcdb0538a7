/** The channel builder (src/channel.rs): the user-agent string, the
    duration conversion, the option table its setters fill, the indexed
    argument array built from it, and the default user agent added on
    connect. Creating the native channel is not modelled. */
module Channel {
  import opened Wrappers
  import opened Grpc

  /** The characters Rust's `str::trim` removes: Unicode White_Space. */
  predicate IsWhiteSpace(c: char)
  {
    ('\t' <= c <= '\r') || c == ' ' || c == '\U{85}' || c == '\U{A0}' || c == '\U{1680}'
    || ('\U{2000}' <= c <= '\U{200A}') || c == '\U{2028}' || c == '\U{2029}' || c == '\U{202F}'
    || c == '\U{205F}' || c == '\U{3000}'
  }

  /** Index of the first character that is not white space (or `|s|`). */
  function TrimStartIndex(s: string, i: nat): (k: nat)
    requires i <= |s|
    ensures i <= k <= |s|
    ensures forall j :: i <= j < k ==> IsWhiteSpace(s[j])
    ensures k < |s| ==> !IsWhiteSpace(s[k])
    decreases |s| - i
  {
    if i == |s| || !IsWhiteSpace(s[i]) then i else TrimStartIndex(s, i + 1)
  }

  /** One past the last character at or after `lo` that is not white
      space (or `lo`). */
  function TrimEndIndex(s: string, lo: nat, j: nat): (k: nat)
    requires lo <= j <= |s|
    ensures lo <= k <= j
    ensures forall m :: k <= m < j ==> IsWhiteSpace(s[m])
    ensures k > lo ==> !IsWhiteSpace(s[k - 1])
    decreases j - lo
  {
    if j == lo || !IsWhiteSpace(s[j - 1]) then j else TrimEndIndex(s, lo, j - 1)
  }

  /** `str::trim`: the longest middle part of `s` that neither starts nor
      ends with white space; only white space is cut off. */
  function Trim(s: string): (t: string)
    ensures t == s[TrimStartIndex(s, 0)..TrimEndIndex(s, TrimStartIndex(s, 0), |s|)]
    ensures |t| > 0 ==> !IsWhiteSpace(t[0]) && !IsWhiteSpace(t[|t| - 1])
    ensures |t| == 0 <==> forall j :: 0 <= j < |s| ==> IsWhiteSpace(s[j])
    ensures forall c :: c in s && !IsWhiteSpace(c) ==> c in t
  {
    var lo := TrimStartIndex(s, 0);
    var hi := TrimEndIndex(s, lo, |s|);
    MiddleKeepsNonWhiteSpace(s, lo, hi);
    s[lo..hi]
  }

  /** Cutting off only white space keeps every other character. */
  lemma MiddleKeepsNonWhiteSpace(s: string, lo: nat, hi: nat)
    requires lo <= hi <= |s|
    requires forall j :: 0 <= j < lo ==> IsWhiteSpace(s[j])
    requires forall j :: hi <= j < |s| ==> IsWhiteSpace(s[j])
    ensures forall c :: c in s && !IsWhiteSpace(c) ==> c in s[lo..hi]
  {
    forall c | c in s && !IsWhiteSpace(c) ensures c in s[lo..hi] {
      var j :| 0 <= j < |s| && s[j] == c;
      assert s[lo..hi][j - lo] == c;
    }
  }

  /** Trimming twice is trimming once. */
  lemma TrimIdempotent(s: string)
    ensures Trim(Trim(s)) == Trim(s)
  {
    var t := Trim(s);
    assert TrimStartIndex(t, 0) == 0;
    if |t| > 0 {
      assert TrimEndIndex(t, 0, |t|) == |t|;
    }
  }

  const UserAgentPrefix: string := "grpc-rust/"

  /** `format_user_agent_string`, for the crate version `version`. The
      result becomes a C string, which fails (`None`) on an embedded NUL. */
  function FormatUserAgent(agent: string, version: string): (r: Option<string>)
    ensures r.None? <==> '\0' in agent || '\0' in version
    ensures r.Some? && Trim(agent) == [] ==> r.value == UserAgentPrefix + version
    ensures r.Some? && Trim(agent) != [] ==> r.value == Trim(agent) + " " + UserAgentPrefix + version
  {
    var t := Trim(agent);
    var v := if t == [] then UserAgentPrefix + version else t + " " + UserAgentPrefix + version;
    assert '\0' in agent <==> '\0' in t by {
      assert !IsWhiteSpace('\0');
    }
    if '\0' in v then None else Some(v)
  }

  /** Surrounding white space in the agent never reaches the string. */
  lemma UserAgentIgnoresPadding(agent: string, version: string)
    ensures FormatUserAgent(Trim(agent), version) == FormatUserAgent(agent, version)
  {
    var t := Trim(agent);
    TrimIdempotent(agent);
    assert Trim(t) == t;
  }

  /** The crate's own marker always ends the user agent. */
  lemma UserAgentEndsWithMarker(agent: string, version: string)
    requires '\0' !in agent && '\0' !in version
    ensures var r := FormatUserAgent(agent, version).value;
            var m := UserAgentPrefix + version;
            |r| >= |m| && r[|r| - |m|..] == m
  {
    var m := UserAgentPrefix + version;
    var t := Trim(agent);
    var p := if t == [] then [] else t + " ";
    assert FormatUserAgent(agent, version).value == p + m by {
      if t != [] {
        assert t + " " + UserAgentPrefix + version == p + m;
      }
    }
    EndsWith(p, m);
  }

  lemma EndsWith(p: string, m: string)
    ensures (p + m)[|p + m| - |m|..] == m
  {
  }

  const U64Limit: nat := 0x1_0000_0000_0000_0000

  /** A `Duration` whose millisecond count fits the `u64` the conversion
      computes in; the product overflows otherwise. */
  predicate DurationFits(secs: nat, nanos: nat)
  {
    nanos < 1_000_000_000 && secs * 1000 + nanos / 1_000_000 < U64Limit
  }

  /** `dur_to_ms`: whole milliseconds, capped at the target's `usize::MAX`. */
  function DurToMs(secs: nat, nanos: nat, w: PointerWidth): (ms: nat)
    requires DurationFits(secs, nanos)
    ensures ms <= UsizeMax(w)
    ensures ms <= secs * 1000 + nanos / 1_000_000
    ensures ms == secs * 1000 + nanos / 1_000_000 || ms == UsizeMax(w)
    ensures w == Bits64 ==> ms == secs * 1000 + nanos / 1_000_000
  {
    var millis := secs * 1000 + nanos / 1_000_000;
    if millis < UsizeMax(w) then millis else UsizeMax(w)
  }

  /** Longer durations never give fewer milliseconds. */
  lemma DurToMsMonotone(s1: nat, n1: nat, s2: nat, n2: nat, w: PointerWidth)
    requires DurationFits(s1, n1) && DurationFits(s2, n2)
    requires s1 < s2 || (s1 == s2 && n1 <= n2)
    ensures DurToMs(s1, n1, w) <= DurToMs(s2, n2, w)
  {
    assert n1 / 1_000_000 <= 999 && n2 / 1_000_000 >= 0;
    if s1 == s2 {
      assert n1 / 1_000_000 <= n2 / 1_000_000;
    }
  }

  /** The option keys the builder knows. */
  datatype OptionKey =
    | DefaultAuthority | MaxConcurrentStreams | MaxReceiveMessageLength | MaxSendMessageLength
    | MaxReconnectBackoffMs | InitialReconnectBackoffMs | Http2InitialSequenceNumber
    | SoReusePort | SslTargetNameOverride | PrimaryUserAgent

  /** The name each option is known by in the native layer. */
  function KeyBase(k: OptionKey): string
  {
    match k
    case DefaultAuthority => "grpc.default_authority"
    case MaxConcurrentStreams => "grpc.max_concurrent_streams"
    case MaxReceiveMessageLength => "grpc.max_receive_message_length"
    case MaxSendMessageLength => "grpc.max_send_message_length"
    case MaxReconnectBackoffMs => "grpc.max_reconnect_backoff_ms"
    case InitialReconnectBackoffMs => "grpc.initial_reconnect_backoff_ms"
    case Http2InitialSequenceNumber => "grpc.http2.initial_sequence_number"
    case SoReusePort => "grpc.so_reuseport"
    case SslTargetNameOverride => "grpc.ssl_target_name_override"
    case PrimaryUserAgent => "grpc.primary_user_agent"
  }

  /** The key as passed: the name with a terminating NUL appended, so it is
      a C string without a copy. */
  function KeyName(k: OptionKey): (name: string)
    ensures |name| > 0 && name[|name| - 1] == '\0'
    ensures name[..|name| - 1] == KeyBase(k)
  {
    var name := KeyBase(k) + "\0";
    assert name[..|name| - 1] == KeyBase(k);
    name
  }

  /** Distinct options are passed under distinct names. */
  lemma KeyNamesDistinct(a: OptionKey, b: OptionKey)
    requires a != b
    ensures KeyName(a) != KeyName(b)
  {
    assert KeyBase(a) != KeyBase(b);
  }

  /** An option value: a `usize` or a C string. */
  datatype OptValue = Integer(n: nat) | Str(s: string)

  type Options = map<OptionKey, OptValue>

  /** One call of a `ChannelBuilder` setter, with its argument. */
  datatype Setting =
    | SetDefaultAuthority(authority: string)
    | SetMaxConcurrentStream(num: nat)
    | SetMaxReceiveMessageLen(recvLen: nat)
    | SetMaxSendMessageLen(sendLen: nat)
    | SetMaxReconnectBackoff(maxSecs: nat, maxNanos: nat)
    | SetInitialReconnectBackoff(initSecs: nat, initNanos: nat)
    | SetHttpsInitialSeqNumber(number: nat)
    | SetPrimaryUserAgent(agent: string)
    | SetReusePort(reuse: bool)
    | SetOverrideSslTarget(target: string)

  /** The key a setter writes. */
  function KeyOf(s: Setting): OptionKey
  {
    match s
    case SetDefaultAuthority(_) => DefaultAuthority
    case SetMaxConcurrentStream(_) => MaxConcurrentStreams
    case SetMaxReceiveMessageLen(_) => MaxReceiveMessageLength
    case SetMaxSendMessageLen(_) => MaxSendMessageLength
    case SetMaxReconnectBackoff(_, _) => MaxReconnectBackoffMs
    case SetInitialReconnectBackoff(_, _) => InitialReconnectBackoffMs
    case SetHttpsInitialSeqNumber(_) => Http2InitialSequenceNumber
    case SetPrimaryUserAgent(_) => PrimaryUserAgent
    case SetReusePort(_) => SoReusePort
    case SetOverrideSslTarget(_) => SslTargetNameOverride
  }

  /** The durations a setter converts must fit the conversion. */
  predicate Admissible(s: Setting)
  {
    match s
    case SetMaxReconnectBackoff(secs, nanos) => DurationFits(secs, nanos)
    case SetInitialReconnectBackoff(secs, nanos) => DurationFits(secs, nanos)
    case _ => true
  }

  /** The value a setter stores; `None` when a string argument does not
      make a C string (the setter panics). */
  function ValueOf(s: Setting, version: string, w: PointerWidth): (v: Option<OptValue>)
    requires Admissible(s)
    ensures s.SetReusePort? ==> v == Some(Integer(if s.reuse then 1 else 0))
    ensures s.SetDefaultAuthority? ==> v == (if '\0' in s.authority then None else Some(Str(s.authority)))
    ensures s.SetOverrideSslTarget? ==> v == (if '\0' in s.target then None else Some(Str(s.target)))
    ensures s.SetPrimaryUserAgent? ==> (v.None? <==> '\0' in s.agent || '\0' in version)
    ensures s.SetPrimaryUserAgent? && v.Some? ==> v == Some(Str(FormatUserAgent(s.agent, version).value))
    ensures s.SetMaxReconnectBackoff? ==> v == Some(Integer(DurToMs(s.maxSecs, s.maxNanos, w)))
    ensures s.SetInitialReconnectBackoff? ==> v == Some(Integer(DurToMs(s.initSecs, s.initNanos, w)))
    ensures s.SetMaxConcurrentStream? ==> v == Some(Integer(s.num))
    ensures s.SetMaxReceiveMessageLen? ==> v == Some(Integer(s.recvLen))
    ensures s.SetMaxSendMessageLen? ==> v == Some(Integer(s.sendLen))
    ensures s.SetHttpsInitialSeqNumber? ==> v == Some(Integer(s.number))
  {
    match s
    case SetDefaultAuthority(a) => if '\0' in a then None else Some(Str(a))
    case SetMaxConcurrentStream(n) => Some(Integer(n))
    case SetMaxReceiveMessageLen(n) => Some(Integer(n))
    case SetMaxSendMessageLen(n) => Some(Integer(n))
    case SetMaxReconnectBackoff(secs, nanos) => Some(Integer(DurToMs(secs, nanos, w)))
    case SetInitialReconnectBackoff(secs, nanos) => Some(Integer(DurToMs(secs, nanos, w)))
    case SetHttpsInitialSeqNumber(n) => Some(Integer(n))
    case SetPrimaryUserAgent(agent) =>
      (match FormatUserAgent(agent, version)
       case None => None
       case Some(ua) => Some(Str(ua)))
    case SetReusePort(reuse) => Some(Integer(if reuse then 1 else 0))
    case SetOverrideSslTarget(t) => if '\0' in t then None else Some(Str(t))
  }

  /** A setter: insert its value under its key, replacing any earlier one
      and leaving every other key as it was. */
  function Apply(opts: Options, s: Setting, version: string, w: PointerWidth): (r: Option<Options>)
    requires Admissible(s)
    ensures r.None? <==> ValueOf(s, version, w).None?
    ensures r.Some? ==> r.value.Keys == opts.Keys + {KeyOf(s)}
    ensures r.Some? ==> r.value[KeyOf(s)] == ValueOf(s, version, w).value
    ensures r.Some? ==> forall k :: k in opts && k != KeyOf(s) ==> r.value[k] == opts[k]
  {
    match ValueOf(s, version, w)
    case None => None
    case Some(v) => Some(opts[KeyOf(s) := v])
  }

  /** Setting the same key twice keeps only the second value. */
  lemma LastWriteWins(opts: Options, s1: Setting, s2: Setting, version: string, w: PointerWidth)
    requires Admissible(s1) && Admissible(s2) && KeyOf(s1) == KeyOf(s2)
    requires Apply(opts, s1, version, w).Some?
    ensures Apply(Apply(opts, s1, version, w).value, s2, version, w) == Apply(opts, s2, version, w)
  {
    var o1 := Apply(opts, s1, version, w).value;
    if ValueOf(s2, version, w).Some? {
      assert o1[KeyOf(s2) := ValueOf(s2, version, w).value] == opts[KeyOf(s2) := ValueOf(s2, version, w).value];
    }
  }

  /** Setters of different keys commute. */
  lemma SettersCommute(opts: Options, s1: Setting, s2: Setting, version: string, w: PointerWidth)
    requires Admissible(s1) && Admissible(s2) && KeyOf(s1) != KeyOf(s2)
    requires Apply(opts, s1, version, w).Some? && Apply(opts, s2, version, w).Some?
    ensures Apply(Apply(opts, s1, version, w).value, s2, version, w) ==
            Apply(Apply(opts, s2, version, w).value, s1, version, w)
  {
    var k1, k2 := KeyOf(s1), KeyOf(s2);
    var v1, v2 := ValueOf(s1, version, w).value, ValueOf(s2, version, w).value;
    assert Apply(opts, s1, version, w) == Some(opts[k1 := v1]);
    assert Apply(opts, s2, version, w) == Some(opts[k2 := v2]);
    assert Apply(opts[k1 := v1], s2, version, w) == Some(opts[k1 := v1][k2 := v2]);
    assert Apply(opts[k2 := v2], s1, version, w) == Some(opts[k2 := v2][k1 := v1]);
    UpdatesCommute(opts, k1, v1, k2, v2);
  }

  lemma UpdatesCommute(m: Options, k1: OptionKey, v1: OptValue, k2: OptionKey, v2: OptValue)
    requires k1 != k2
    ensures m[k1 := v1][k2 := v2] == m[k2 := v2][k1 := v1]
  {
    assert m[k1 := v1][k2 := v2].Keys == m[k2 := v2][k1 := v1].Keys;
  }

  /** A builder's setters applied in order; `None` if one of them panics. */
  function Configure(opts: Options, ss: seq<Setting>, version: string, w: PointerWidth): (r: Option<Options>)
    requires forall i :: 0 <= i < |ss| ==> Admissible(ss[i])
    ensures r.Some? <==> forall i :: 0 <= i < |ss| ==> ValueOf(ss[i], version, w).Some?
    decreases |ss|
  {
    if |ss| == 0 then Some(opts)
    else
      match Apply(opts, ss[0], version, w)
      case None => None
      case Some(o) =>
        assert forall i :: 0 < i < |ss| ==> ss[i] == ss[1..][i - 1];
        Configure(o, ss[1..], version, w)
  }

  /** After a sequence of setters, a key holds the value of the last
      setter that wrote it. */
  lemma {:induction false} ConfigureKeepsLastValue(opts: Options, ss: seq<Setting>, version: string, w: PointerWidth, i: nat)
    requires forall j :: 0 <= j < |ss| ==> Admissible(ss[j])
    requires Configure(opts, ss, version, w).Some?
    requires i < |ss| && forall j :: i < j < |ss| ==> KeyOf(ss[j]) != KeyOf(ss[i])
    ensures KeyOf(ss[i]) in Configure(opts, ss, version, w).value
    ensures Configure(opts, ss, version, w).value[KeyOf(ss[i])] == ValueOf(ss[i], version, w).value
    decreases |ss|
  {
    var o := Apply(opts, ss[0], version, w).value;
    if i > 0 {
      assert ss[1..][i - 1] == ss[i];
      assert forall j :: i - 1 < j < |ss| - 1 ==> ss[1..][j] == ss[j + 1];
      ConfigureKeepsLastValue(o, ss[1..], version, w, i - 1);
    } else {
      assert forall j :: 0 <= j < |ss| - 1 ==> KeyOf(ss[1..][j]) != KeyOf(ss[0]) by {
        assert forall j :: 0 <= j < |ss| - 1 ==> ss[1..][j] == ss[j + 1];
      }
      ConfigureLeavesOthers(o, ss[1..], version, w, KeyOf(ss[0]));
    }
  }

  /** A key no setter wrote keeps its earlier value, or stays absent. */
  lemma {:induction false} ConfigureLeavesOthers(opts: Options, ss: seq<Setting>, version: string, w: PointerWidth, k: OptionKey)
    requires forall j :: 0 <= j < |ss| ==> Admissible(ss[j])
    requires Configure(opts, ss, version, w).Some?
    requires forall j :: 0 <= j < |ss| ==> KeyOf(ss[j]) != k
    ensures k in Configure(opts, ss, version, w).value <==> k in opts
    ensures k in opts ==> Configure(opts, ss, version, w).value[k] == opts[k]
    decreases |ss|
  {
    if |ss| > 0 {
      assert forall j :: 0 <= j < |ss| - 1 ==> ss[1..][j] == ss[j + 1];
      ConfigureLeavesOthers(Apply(opts, ss[0], version, w).value, ss[1..], version, w, k);
    }
  }

  /** What `connect` adds before building the arguments: the default user
      agent, only when none was set. The address must make a C string. */
  function ConnectOptions(opts: Options, addr: string, version: string): (r: Option<Options>)
    ensures '\0' in addr ==> r.None?
    ensures '\0' !in addr && PrimaryUserAgent in opts ==> r == Some(opts)
    ensures '\0' !in addr && PrimaryUserAgent !in opts ==>
              (r.None? <==> '\0' in version) &&
              (r.Some? ==> r.value == opts[PrimaryUserAgent := Str(UserAgentPrefix + version)])
  {
    if '\0' in addr then None
    else if PrimaryUserAgent in opts then Some(opts)
    else
      match FormatUserAgent("", version)
      case None => None
      case Some(ua) => Some(opts[PrimaryUserAgent := Str(ua)])
  }

  /** The value a C `int` argument receives from `val as c_int`: the low
      32 bits of the `usize`, read as two's complement. */
  function ToCInt(n: nat): (i: int)
    ensures -0x8000_0000 <= i < 0x8000_0000
    ensures (i - n) % 0x1_0000_0000 == 0
    ensures n < 0x8000_0000 ==> i == n
  {
    var low := n % 0x1_0000_0000;
    if low < 0x8000_0000 then low else low - 0x1_0000_0000
  }

  /** One slot of the native argument array. */
  datatype Arg = IntArg(intKey: string, intValue: int) | StrArg(strKey: string, strValue: string)

  function ArgKey(a: Arg): string
  {
    if a.IntArg? then a.intKey else a.strKey
  }

  function ArgOf(k: OptionKey, v: OptValue): Arg
  {
    match v
    case Integer(n) => IntArg(KeyName(k), ToCInt(n))
    case Str(s) => StrArg(KeyName(k), s)
  }

  /** `build_args`: an array of `|opts|` slots, slot `i` holding the `i`-th
      entry of the table's iteration order `order`. */
  method BuildArgs(opts: Options, order: seq<OptionKey>) returns (args: seq<Arg>)
    requires |order| == |opts|
    requires forall i :: 0 <= i < |order| ==> order[i] in opts
    requires forall i, j :: 0 <= i < j < |order| ==> order[i] != order[j]
    ensures |args| == |opts|
    ensures forall i :: 0 <= i < |args| ==> args[i] == ArgOf(order[i], opts[order[i]])
    ensures forall i, j :: 0 <= i < j < |args| ==> ArgKey(args[i]) != ArgKey(args[j])
  {
    var slots: seq<Option<Arg>> := seq(|opts|, _ => None);
    var i := 0;
    while i < |order|
      invariant 0 <= i <= |order| && |slots| == |opts|
      invariant forall j :: 0 <= j < i ==> slots[j] == Some(ArgOf(order[j], opts[order[j]]))
      invariant forall j :: i <= j < |slots| ==> slots[j].None?
    {
      slots := slots[i := Some(ArgOf(order[i], opts[order[i]]))];
      i := i + 1;
    }
    args := seq(|slots|, j requires 0 <= j < |slots| && slots[j].Some? => slots[j].value);
    ArgKeysDistinct(opts, order, args);
  }

  /** Distinct keys in the iteration order give distinct argument keys. */
  lemma ArgKeysDistinct(opts: Options, order: seq<OptionKey>, args: seq<Arg>)
    requires |args| == |order|
    requires forall i :: 0 <= i < |order| ==> order[i] in opts
    requires forall i, j :: 0 <= i < j < |order| ==> order[i] != order[j]
    requires forall i :: 0 <= i < |args| ==> args[i] == ArgOf(order[i], opts[order[i]])
    ensures forall i, j :: 0 <= i < j < |args| ==> ArgKey(args[i]) != ArgKey(args[j])
  {
    forall i, j | 0 <= i < j < |args|
      ensures ArgKey(args[i]) != ArgKey(args[j])
    {
      assert ArgKey(args[i]) == KeyName(order[i]);
      assert ArgKey(args[j]) == KeyName(order[j]);
      KeyNamesDistinct(order[i], order[j]);
    }
  }
}
