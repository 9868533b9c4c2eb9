/**
 * The travel URL a player is sent to when handed off to another server, and
 * the option lookup the receiving server's login applies to it.
 *
 * A URL is `host?Key=Value?Key=Value...`. The receiving side cuts it at every
 * `?` and looks an option up by its key; `GetIntOption` then reads the value
 * as a decimal integer. These option helpers belong to the engine and are
 * modelled here by the behaviour the login code relies on.
 */
module Travel {
  import opened Wrappers
  import opened Numeric
  import opened Lists

  /** Everything a reconnect URL carries. `None` marks an option that is left off. */
  datatype ReconnectTarget = ReconnectTarget(
    IP: string,
    Port: int,
    WebSocketURL: string,
    UserID: Option<int>,
    FactionID: Option<int>,
    Token: Option<string>)

  /** One `Key=Value` option. */
  function Opt(key: string, value: string): (o: string)
    ensures |o| == |key| + 1 + |value|
    ensures o[..|key| + 1] == key + "=" && o[|key| + 1..] == value
  {
    key + "=" + value
  }

  /** "?" before every option, in order. */
  function JoinOptions(opts: seq<string>): (s: string)
    ensures |opts| > 0 ==> |s| > 0 && s[0] == '?'
    decreases |opts|
  {
    if |opts| == 0 then "" else "?" + opts[0] + JoinOptions(opts[1..])
  }

  lemma {:induction false} JoinOptionsAppend(a: seq<string>, b: seq<string>)
    ensures JoinOptions(a + b) == JoinOptions(a) + JoinOptions(b)
    decreases |a|
  {
    if |a| == 0 {
      assert a + b == b;
    } else {
      assert (a + b)[1..] == a[1..] + b;
      JoinOptionsAppend(a[1..], b);
    }
  }

  /** Appending one option to an assembled URL is appending it to the option list. */
  lemma AppendOption(host: string, opts: seq<string>, o: string)
    ensures host + JoinOptions(opts) + "?" + o == host + JoinOptions(opts + [o])
  {
    JoinOptionsAppend(opts, [o]);
    assert JoinOptions([o]) == "?" + o;
  }

  function IntOption(key: string, v: Option<int>): (opts: seq<string>)
    ensures v.None? <==> opts == []
  {
    match v
    case None => []
    case Some(n) => [Opt(key, Decimal(n))]
  }

  function StringOption(key: string, v: Option<string>): (opts: seq<string>)
    ensures v.None? <==> opts == []
  {
    match v
    case None => []
    case Some(x) => [Opt(key, x)]
  }

  /** The options of a reconnect URL, in the order the URL is assembled. */
  function TargetOptions(t: ReconnectTarget): (opts: seq<string>)
    ensures |opts| >= 1 && opts[0] == Opt("WebSocketURL", t.WebSocketURL)
  {
    [Opt("WebSocketURL", t.WebSocketURL)]
      + IntOption("UserID", t.UserID)
      + IntOption("FactionID", t.FactionID)
      + StringOption("Token", t.Token)
  }

  function ReconnectURL(t: ReconnectTarget): string
  {
    t.IP + ":" + Decimal(t.Port) + JoinOptions(TargetOptions(t))
  }

  /** The pieces of `s` between the `?` separators. */
  function Segments(s: string): (r: seq<string>)
    ensures |r| >= 1
    decreases |s|
  {
    match FirstMatch(s, (c: char) => c == '?')
    case None => [s]
    case Some(i) => [s[..i]] + Segments(s[i + 1..])
  }

  /** The options of a URL: everything after its host part. */
  function URLOptions(url: string): seq<string>
  {
    Segments(url)[1..]
  }

  /** ASCII lower-casing: the case folding of the engine's string comparison. */
  function Lower(c: char): (r: char)
    ensures 'A' <= c <= 'Z' ==> r as int == c as int + 32
    ensures !('A' <= c <= 'Z') ==> r == c
  {
    if 'A' <= c <= 'Z' then (c as int + 32) as char else c
  }

  /** Two keys the engine's comparison treats as equal: the same letters, ignoring ASCII case. */
  predicate SameKey(a: string, b: string)
  {
    |a| == |b| && forall i :: 0 <= i < |a| ==> Lower(a[i]) == Lower(b[i])
  }

  /** Option `o` is named `key`: the text before its `=` matches `key`, ignoring ASCII case. */
  predicate Named(o: string, key: string)
  {
    |key| + 1 <= |o| && SameKey(o[..|key|], key) && o[|key|] == '='
  }

  /** The value of the first option named `key`, if any. */
  function FindOption(opts: seq<string>, key: string): (r: Option<string>)
    ensures r.Some? ==> exists i :: 0 <= i < |opts| && Named(opts[i], key) && r.value == opts[i][|key| + 1..]
                                    && forall j :: 0 <= j < i ==> !Named(opts[j], key)
    ensures r.None? <==> forall i :: 0 <= i < |opts| ==> !Named(opts[i], key)
  {
    match FirstMatch(opts, (o: string) => Named(o, key))
    case None => None
    case Some(i) => Some(opts[i][|key| + 1..])
  }

  /**
   * The integer value of an option: `default` when the URL does not carry it
   * or carries it empty, the number when it is a decimal, and 0 otherwise.
   */
  function GetIntOption(url: string, key: string, default: int): int
  {
    match FindOption(URLOptions(url), key)
    case None => default
    case Some(v) =>
      if v == "" then default
      else match ParseDecimal(v) case Some(n) => n case None => 0
  }

  /** The first-match scan gives the same answer for two tests that agree on every element. */
  lemma FirstMatchAgree<T>(s: seq<T>, p: T -> bool, q: T -> bool)
    requires forall i :: 0 <= i < |s| ==> p(s[i]) == q(s[i])
    ensures FirstMatch(s, p) == FirstMatch(s, q)
  {
  }

  /** Keys that differ only in ASCII case find the same option. */
  lemma FindOptionSameKey(opts: seq<string>, k1: string, k2: string)
    requires SameKey(k1, k2)
    ensures FindOption(opts, k1) == FindOption(opts, k2)
  {
    forall i | 0 <= i < |opts|
      ensures Named(opts[i], k1) == Named(opts[i], k2)
    {
    }
    FirstMatchAgree(opts, (o: string) => Named(o, k1), (o: string) => Named(o, k2));
  }

  /** So `GetIntOption` reads the same number under either spelling of a key. */
  lemma GetIntOptionSameKey(url: string, k1: string, k2: string, default: int)
    requires SameKey(k1, k2)
    ensures GetIntOption(url, k1, default) == GetIntOption(url, k2, default)
  {
    FindOptionSameKey(URLOptions(url), k1, k2);
  }

  predicate NoSeparator(s: string) { '?' !in s }

  predicate ValidTarget(t: ReconnectTarget)
  {
    NoSeparator(t.IP) && NoSeparator(t.WebSocketURL) && (t.Token.Some? ==> NoSeparator(t.Token.value))
  }

  lemma DecimalNoSeparator(n: int)
    ensures NoSeparator(Decimal(n))
  {
    var s := Decimal(n);
    if n < 0 {
      assert s == "-" + Digits(-n);
      assert forall i :: 1 <= i < |s| ==> s[i] == Digits(-n)[i - 1];
    }
  }

  lemma {:induction false} SegmentsCons(a: string, b: string)
    requires NoSeparator(a)
    ensures Segments(a + "?" + b) == [a] + Segments(b)
  {
    var s := a + "?" + b;
    var m := FirstMatch(s, (c: char) => c == '?');
    assert s[|a|] == '?';
    assert forall j :: 0 <= j < |a| ==> s[j] == a[j] && a[j] in a;
    assert m == Some(|a|);
    assert s[..|a|] == a;
    assert s[|a| + 1..] == b;
  }

  lemma {:induction false} SegmentsOfJoin(host: string, opts: seq<string>)
    requires NoSeparator(host)
    requires forall i :: 0 <= i < |opts| ==> NoSeparator(opts[i])
    ensures Segments(host + JoinOptions(opts)) == [host] + opts
    decreases |opts|
  {
    if |opts| == 0 {
      assert host + JoinOptions(opts) == host;
      SegmentsSingle(host);
    } else {
      var tail := opts[0] + JoinOptions(opts[1..]);
      SegmentsOfJoin(opts[0], opts[1..]);
      JoinOptionsCons(host, opts);
      SegmentsCons(host, tail);
      assert [opts[0]] + opts[1..] == opts;
    }
  }

  /** A string without separators is a single segment. */
  lemma SegmentsSingle(s: string)
    requires NoSeparator(s)
    ensures Segments(s) == [s]
  {
    assert FirstMatch(s, (c: char) => c == '?').None? by {
      forall j | 0 <= j < |s| ensures s[j] != '?' {
        assert s[j] in s;
      }
    }
  }

  lemma JoinOptionsCons(host: string, opts: seq<string>)
    requires |opts| > 0
    ensures host + JoinOptions(opts) == host + "?" + (opts[0] + JoinOptions(opts[1..]))
  {
    var rest := JoinOptions(opts[1..]);
    assert JoinOptions(opts) == "?" + opts[0] + rest;
    AppendAssoc("?", opts[0], rest);
    AppendAssoc(host, "?", opts[0] + rest);
  }

  /** Concatenation is associative; stated once so that proofs can regroup without searching. */
  lemma AppendAssoc<T>(a: seq<T>, b: seq<T>, c: seq<T>)
    ensures a + b + c == a + (b + c)
  {
    var l := a + b + c;
    var r := a + (b + c);
    assert |l| == |r|;
    forall i | 0 <= i < |l| ensures l[i] == r[i] {
      if i < |a| {
      } else if i < |a| + |b| {
      } else {
      }
    }
  }

  lemma NoSeparatorConcat(a: string, b: string)
    requires NoSeparator(a) && NoSeparator(b)
    ensures NoSeparator(a + b)
  {
    forall i | 0 <= i < |a + b| ensures (a + b)[i] != '?' {
      if i < |a| { assert (a + b)[i] == a[i]; } else { assert (a + b)[i] == b[i - |a|]; }
    }
  }

  /** With no `?` inside its values, a reconnect URL splits back into its host and its options. */
  lemma URLOptionsOfReconnect(t: ReconnectTarget)
    requires ValidTarget(t)
    ensures Segments(ReconnectURL(t))[0] == t.IP + ":" + Decimal(t.Port)
    ensures URLOptions(ReconnectURL(t)) == TargetOptions(t)
  {
    var host := t.IP + ":" + Decimal(t.Port);
    DecimalNoSeparator(t.Port);
    NoSeparatorConcat(t.IP, ":");
    NoSeparatorConcat(t.IP + ":", Decimal(t.Port));
    var opts := TargetOptions(t);
    forall i | 0 <= i < |opts| ensures NoSeparator(opts[i]) {
      NoSeparatorConcat("WebSocketURL=", t.WebSocketURL);
      if t.UserID.Some? {
        DecimalNoSeparator(t.UserID.value);
        NoSeparatorConcat("UserID=", Decimal(t.UserID.value));
      }
      if t.FactionID.Some? {
        DecimalNoSeparator(t.FactionID.value);
        NoSeparatorConcat("FactionID=", Decimal(t.FactionID.value));
      }
      if t.Token.Some? {
        NoSeparatorConcat("Token=", t.Token.value);
      }
    }
    SegmentsOfJoin(host, opts);
  }

  /**
   * The receiving server's login reads back exactly what the URL was built
   * with: each option is found iff it was included, with its value.
   */
  lemma ReconnectOptionsReadBack(t: ReconnectTarget)
    requires ValidTarget(t)
    ensures FindOption(URLOptions(ReconnectURL(t)), "WebSocketURL") == Some(t.WebSocketURL)
    ensures FindOption(URLOptions(ReconnectURL(t)), "UserID") == DecimalOf(t.UserID)
    ensures FindOption(URLOptions(ReconnectURL(t)), "FactionID") == DecimalOf(t.FactionID)
    ensures FindOption(URLOptions(ReconnectURL(t)), "Token") == t.Token
  {
    URLOptionsOfReconnect(t);
    FindWebSocketURL(t);
    FindUserID(t);
    FindFactionID(t);
    FindToken(t);
  }

  /** The login's `GetIntOption(Options, "UserID", -1)` and `"FactionID"` recover the numbers sent, or -1 when left off. */
  lemma ReconnectIntOptionsReadBack(t: ReconnectTarget)
    requires ValidTarget(t)
    ensures GetIntOption(ReconnectURL(t), "UserID", -1) == (match t.UserID case None => -1 case Some(n) => n)
    ensures GetIntOption(ReconnectURL(t), "FactionID", -1) == (match t.FactionID case None => -1 case Some(n) => n)
  {
    ReconnectOptionsReadBack(t);
    IntOptionReadBack(ReconnectURL(t), "UserID", t.UserID);
    IntOptionReadBack(ReconnectURL(t), "FactionID", t.FactionID);
  }

  /** An option found holding a printed number, or not found at all, reads back as that number, or -1. */
  lemma IntOptionReadBack(url: string, key: string, v: Option<int>)
    requires FindOption(URLOptions(url), key) == DecimalOf(v)
    ensures GetIntOption(url, key, -1) == (match v case None => -1 case Some(n) => n)
  {
    if v.Some? {
      DecimalRoundTrip(v.value);
    }
  }

  lemma FindWebSocketURL(t: ReconnectTarget)
    ensures FindOption(TargetOptions(t), "WebSocketURL") == Some(t.WebSocketURL)
  {
    var ws := [Opt("WebSocketURL", t.WebSocketURL)];
    var rest := IntOption("UserID", t.UserID) + IntOption("FactionID", t.FactionID) + StringOption("Token", t.Token);
    OptionHeads(t);
    HeadsAvoidConcat(IntOption("UserID", t.UserID), IntOption("FactionID", t.FactionID), 'W');
    HeadsAvoidConcat(IntOption("UserID", t.UserID) + IntOption("FactionID", t.FactionID), StringOption("Token", t.Token), 'W');
    AppendAssoc(ws + IntOption("UserID", t.UserID), IntOption("FactionID", t.FactionID), StringOption("Token", t.Token));
    AppendAssoc(ws, IntOption("UserID", t.UserID), IntOption("FactionID", t.FactionID) + StringOption("Token", t.Token));
    AppendAssoc(IntOption("UserID", t.UserID), IntOption("FactionID", t.FactionID), StringOption("Token", t.Token));
    assert [] + ws == ws;
    assert TargetOptions(t) == [] + ws + rest;
    FindAmong([], ws, rest, "WebSocketURL", Some(t.WebSocketURL));
  }

  lemma FindUserID(t: ReconnectTarget)
    ensures FindOption(TargetOptions(t), "UserID") == DecimalOf(t.UserID)
  {
    var ws := [Opt("WebSocketURL", t.WebSocketURL)];
    var rest := IntOption("FactionID", t.FactionID) + StringOption("Token", t.Token);
    OptionHeads(t);
    HeadsAvoidConcat(IntOption("FactionID", t.FactionID), StringOption("Token", t.Token), 'U');
    AppendAssoc(ws + IntOption("UserID", t.UserID), IntOption("FactionID", t.FactionID), StringOption("Token", t.Token));
    assert TargetOptions(t) == ws + IntOption("UserID", t.UserID) + rest;
    FindAmong(ws, IntOption("UserID", t.UserID), rest, "UserID", DecimalOf(t.UserID));
  }

  lemma FindFactionID(t: ReconnectTarget)
    ensures FindOption(TargetOptions(t), "FactionID") == DecimalOf(t.FactionID)
  {
    var before := [Opt("WebSocketURL", t.WebSocketURL)] + IntOption("UserID", t.UserID);
    OptionHeads(t);
    HeadsAvoidConcat([Opt("WebSocketURL", t.WebSocketURL)], IntOption("UserID", t.UserID), 'F');
    assert TargetOptions(t) == before + IntOption("FactionID", t.FactionID) + StringOption("Token", t.Token);
    FindAmong(before, IntOption("FactionID", t.FactionID), StringOption("Token", t.Token), "FactionID", DecimalOf(t.FactionID));
  }

  lemma FindToken(t: ReconnectTarget)
    ensures FindOption(TargetOptions(t), "Token") == t.Token
  {
    var before := [Opt("WebSocketURL", t.WebSocketURL)] + IntOption("UserID", t.UserID) + IntOption("FactionID", t.FactionID);
    OptionHeads(t);
    HeadsAvoidConcat([Opt("WebSocketURL", t.WebSocketURL)], IntOption("UserID", t.UserID), 'T');
    HeadsAvoidConcat([Opt("WebSocketURL", t.WebSocketURL)] + IntOption("UserID", t.UserID), IntOption("FactionID", t.FactionID), 'T');
    assert TargetOptions(t) == before + StringOption("Token", t.Token) + [];
    FindAmong(before, StringOption("Token", t.Token), [], "Token", t.Token);
  }

  function DecimalOf(v: Option<int>): (r: Option<string>)
    ensures r.Some? <==> v.Some?
  {
    match v case None => None case Some(n) => Some(Decimal(n))
  }

  /** Each option of a reconnect URL starts with its own name's first letter. */
  lemma OptionHeads(t: ReconnectTarget)
    ensures HeadsAvoid([Opt("WebSocketURL", t.WebSocketURL)], 'U')
    ensures HeadsAvoid([Opt("WebSocketURL", t.WebSocketURL)], 'F')
    ensures HeadsAvoid([Opt("WebSocketURL", t.WebSocketURL)], 'T')
    ensures HeadsAvoid(IntOption("UserID", t.UserID), 'W')
    ensures HeadsAvoid(IntOption("UserID", t.UserID), 'F')
    ensures HeadsAvoid(IntOption("UserID", t.UserID), 'T')
    ensures HeadsAvoid(IntOption("FactionID", t.FactionID), 'W')
    ensures HeadsAvoid(IntOption("FactionID", t.FactionID), 'U')
    ensures HeadsAvoid(IntOption("FactionID", t.FactionID), 'T')
    ensures HeadsAvoid(StringOption("Token", t.Token), 'W')
    ensures HeadsAvoid(StringOption("Token", t.Token), 'U')
    ensures HeadsAvoid(StringOption("Token", t.Token), 'F')
  {
    OptAvoids("WebSocketURL", t.WebSocketURL, 'U');
    OptAvoids("WebSocketURL", t.WebSocketURL, 'F');
    OptAvoids("WebSocketURL", t.WebSocketURL, 'T');
    IntOptionAvoids("UserID", t.UserID, 'W');
    IntOptionAvoids("UserID", t.UserID, 'F');
    IntOptionAvoids("UserID", t.UserID, 'T');
    IntOptionAvoids("FactionID", t.FactionID, 'W');
    IntOptionAvoids("FactionID", t.FactionID, 'U');
    IntOptionAvoids("FactionID", t.FactionID, 'T');
    StringOptionAvoids("Token", t.Token, 'W');
    StringOptionAvoids("Token", t.Token, 'U');
    StringOptionAvoids("Token", t.Token, 'F');
  }

  /** An option starts with its name's first letter. */
  lemma OptAvoids(key: string, value: string, c: char)
    requires |key| > 0 && Lower(key[0]) != Lower(c)
    ensures HeadsAvoid([Opt(key, value)], c)
  {
    assert Opt(key, value)[0] == key[0];
  }

  lemma IntOptionAvoids(key: string, v: Option<int>, c: char)
    requires |key| > 0 && Lower(key[0]) != Lower(c)
    ensures HeadsAvoid(IntOption(key, v), c)
  {
    if v.Some? {
      OptAvoids(key, Decimal(v.value), c);
    }
  }

  lemma StringOptionAvoids(key: string, v: Option<string>, c: char)
    requires |key| > 0 && Lower(key[0]) != Lower(c)
    ensures HeadsAvoid(StringOption(key, v), c)
  {
    if v.Some? {
      OptAvoids(key, v.value, c);
    }
  }

  /** Every option in `opts` is non-empty and starts with a letter other than `c`, in either case. */
  predicate HeadsAvoid(opts: seq<string>, c: char)
  {
    forall i :: 0 <= i < |opts| ==> |opts[i]| > 0 && Lower(opts[i][0]) != Lower(c)
  }

  lemma HeadsAvoidConcat(a: seq<string>, b: seq<string>, c: char)
    requires HeadsAvoid(a, c) && HeadsAvoid(b, c)
    ensures HeadsAvoid(a + b, c)
  {
    forall i | 0 <= i < |a + b| ensures |(a + b)[i]| > 0 && Lower((a + b)[i][0]) != Lower(c) {
      if i < |a| { assert (a + b)[i] == a[i]; } else { assert (a + b)[i] == b[i - |a|]; }
    }
  }

  /** Options whose names start with another letter are passed over by the lookup. */
  lemma FindOptionSkip(skipped: seq<string>, rest: seq<string>, key: string)
    requires |key| > 0 && HeadsAvoid(skipped, key[0])
    ensures FindOption(skipped + rest, key) == FindOption(rest, key)
  {
    var all := skipped + rest;
    forall i | 0 <= i < |skipped| ensures !Named(all[i], key) {
      assert all[i] == skipped[i];
      if |key| + 1 <= |all[i]| {
        assert all[i][..|key|][0] == all[i][0];
      }
    }
    forall i | 0 <= i < |rest| ensures Named(all[|skipped| + i], key) == Named(rest[i], key) {
      assert all[|skipped| + i] == rest[i];
    }
    var r1 := FirstMatch(all, (o: string) => Named(o, key));
    var r2 := FirstMatch(rest, (o: string) => Named(o, key));
    if r2.Some? {
      assert Named(all[|skipped| + r2.value], key);
      assert r1 == Some(|skipped| + r2.value);
      assert all[|skipped| + r2.value] == rest[r2.value];
    }
  }

  /** Looking `key` up where its one option (if present) sits between options of other names. */
  lemma FindAmong(before: seq<string>, mid: seq<string>, after: seq<string>, key: string, found: Option<string>)
    requires |key| > 0 && HeadsAvoid(before, key[0]) && HeadsAvoid(after, key[0])
    requires mid == (match found case None => [] case Some(v) => [Opt(key, v)])
    ensures FindOption(before + mid + after, key) == found
  {
    FindOptionSkip(before, mid + after, key);
    assert before + mid + after == before + (mid + after);
    if found.None? {
      assert mid + after == after;
      FindOptionSkip(after, [], key);
      assert after + [] == after;
    } else {
      var all := mid + after;
      var o := Opt(key, found.value);
      assert all[0] == o;
      assert o[..|key|] == key;
      assert Named(all[0], key);
    }
  }
}
