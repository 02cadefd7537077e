/**
 * The pure part of the DuetRRF output device: device modes and ids, URL and
 * file-name normalisation, `rr_*` request assembly, upload progress, the
 * G-code buffer, and the request sequence each mode is meant to issue.
 */
module Protocol {
  import opened Wrappers

  /** Operating mode of one output device (`DeviceType`). */
  datatype DeviceType = Print | Simulate | Upload

  /** Session stage (`OutputStage`). */
  datatype Stage = Ready | Writing

  /** The completion handlers a reply's `finished` signal can be wired to. */
  datatype Callback =
    | OnConnected
    | OnUploadDone
    | OnReadyToPrint
    | OnPrintStarted
    | OnStatusReceived
    | OnSimulationStopped
    | OnReporting
    | OnReported

  /** Exceptions the modelled code raises. */
  datatype Error =
    | DeviceBusy        // `OutputDeviceError.DeviceBusyError`
    | ValueError        // I/O on a closed `StringIO`
    | JsonDecodeError   // status body that is not JSON
    | KeyError          // missing dictionary key
    | TypeError         // indexing a JSON value that is not an object, or `float` of one
    | UnicodeDecodeError  // status bytes that are not UTF-8

  /** What a handler did: nothing (stale), its work, or raised before changing anything. */
  datatype Effect = Ignored | Done | Raised(error: Error)

  /** Notifications to the host: `writeStarted`, `writeProgress`, `writeSuccess`, `writeError`.
      `WriteProgress(num, den)` carries the value num / den. */
  datatype Signal = WriteStarted | WriteProgress(num: int, den: int) | WriteSuccess | WriteError

  datatype Method = Get | Post

  /** A decoded JSON value, with the text of strings kept. */
  datatype JsonValue = JsonString(text: string) | JsonNumber | JsonBool | JsonNull | JsonArray | JsonObject

  /** A status-poll reply body: bytes that are not UTF-8, text that is not JSON,
      JSON that is not an object, or a decoded JSON object. */
  datatype StatusBody = NotUtf8 | Malformed | NotObject | Object(fields: map<string, JsonValue>)

  type Query = seq<(string, string)>

  /** One issued `rr_*` command: its name, query, HTTP method and body. */
  datatype Call = Call(command: string, query: Query, verb: Method, body: Option<string>)

  /** A built request: full URL, method, basic-auth credentials if sent, and body. */
  datatype Request = Request(url: string, verb: Method, authorization: Option<(string, string)>, body: Option<string>)

  // ---------------------------------------------------------------------------
  // Device identity

  function IdSuffix(t: DeviceType): string
  {
    match t
    case Print => "-print"
    case Simulate => "-simulate"
    case Upload => "-upload"
  }

  /** The output-device id of instance `name` in mode `t`. */
  function DeviceId(name: string, t: DeviceType): (id: string)
    ensures |name| < |id| && id[..|name|] == name
  {
    name + IdSuffix(t)
  }

  /** Ids never collide: the instance name and the mode can be read back from an id. */
  lemma DeviceIdInjective(n1: string, t1: DeviceType, n2: string, t2: DeviceType)
    requires DeviceId(n1, t1) == DeviceId(n2, t2)
    ensures n1 == n2 && t1 == t2
  {
    var id := DeviceId(n1, t1);
    var s1, s2 := IdSuffix(t1), IdSuffix(t2);
    assert id[|id| - 1] == s1[|s1| - 1] && id[|id| - 1] == s2[|s2| - 1];
    assert t1 == t2;
    assert n1 == id[..|n1|] && n2 == id[..|n2|];
  }

  /** Menu priority of a mode. */
  function Priority(t: DeviceType): (p: int)
    ensures p in {10, 20, 30}
    ensures t == Print <==> p == 30
    ensures t == Upload <==> p == 10
  {
    match t
    case Print => 30
    case Simulate => 20
    case Upload => 10
  }

  // ---------------------------------------------------------------------------
  // URL and file names

  predicate EndsWith(s: string, suffix: string)
  {
    |suffix| <= |s| && s[|s| - |suffix|..] == suffix
  }

  /** The stored base URL: a trailing `/` is added when missing. */
  function NormaliseUrl(url: string): (r: string)
    ensures EndsWith(r, "/")
    ensures r == url || r == url + "/"
    ensures EndsWith(url, "/") ==> r == url
  {
    if EndsWith(url, "/") then url else url + "/"
  }

  lemma NormaliseUrlIdempotent(url: string)
    ensures NormaliseUrl(NormaliseUrl(url)) == NormaliseUrl(url)
  {
  }

  /** Index of the last `c` in `s`, or -1. */
  function LastIndexOf(s: string, c: char): (r: int)
    ensures -1 <= r < |s|
    ensures 0 <= r ==> s[r] == c
    ensures forall j :: r < j < |s| ==> s[j] != c
  {
    if s == [] then -1
    else if s[|s| - 1] == c then |s| - 1
    else LastIndexOf(s[..|s| - 1], c)
  }

  /** Whether `p[lo..hi]` consists of dots only. */
  predicate DotsOnly(p: string, lo: int, hi: int)
    requires 0 <= lo <= hi <= |p|
  {
    forall j :: lo <= j < hi ==> p[j] == '.'
  }

  /** Whether `p[lo..hi]` contains no path separator. */
  predicate NoSeparator(p: string, lo: int, hi: int)
    requires 0 <= lo <= hi <= |p|
  {
    forall j :: lo <= j < hi ==> p[j] != '/'
  }

  /** Whether `p` has an extension in the sense of `os.path.splitext`: its last
      path component has a dot after some character that is not a dot. */
  predicate HasExtension(p: string)
  {
    exists i, j :: 0 <= i < j < |p| && p[i] != '.' && p[j] == '.' && NoSeparator(p, i, |p|)
  }

  /** The root POSIX `os.path.splitext` returns: `p` without its last extension.
      A dot belongs to an extension only if it lies in the last path component
      and something other than dots precedes it there. */
  function SplitExtRoot(p: string): (root: string)
    ensures |root| <= |p| && root == p[..|root|]
    ensures root != p <==> HasExtension(p)
    ensures root != p ==> p[|root|] == '.' && forall j :: |root| < j < |p| ==> p[j] != '.'
    ensures root != p ==> forall j :: |root| <= j < |p| ==> p[j] != '/'
  {
    var sep := LastIndexOf(p, '/');
    var dot := LastIndexOf(p, '.');
    if sep < dot && !DotsOnly(p, sep + 1, dot) then
      assert HasExtension(p) by {
        var i :| sep + 1 <= i < dot && p[i] != '.';
        assert 0 <= i < dot < |p| && p[i] != '.' && p[dot] == '.' && NoSeparator(p, i, |p|);
      }
      p[..dot]
    else
      assert !HasExtension(p) by {
        forall i, j | 0 <= i < j < |p| && p[j] == '.' && NoSeparator(p, i, |p|) ensures p[i] == '.' {
          assert j <= dot && sep < i;
        }
      }
      p
  }

  /** The file name `requestWrite` starts from: the supplied name with its
      extension replaced by `.gcode`, or the job name plus `.gcode`. */
  function SuppliedFileName(supplied: Option<string>, jobName: string): (r: string)
    ensures EndsWith(r, ".gcode")
    ensures !Truthy(supplied) ==> r == jobName + ".gcode"
  {
    if supplied.Some? && supplied.value != "" then SplitExtRoot(supplied.value) + ".gcode"
    else jobName + ".gcode"
  }

  /** A supplied `stem.ext` becomes `stem.gcode`, whenever the stem's last path
      component (from index `k` on) has a character that is not a dot. */
  lemma SuppliedExtensionReplaced(stem: string, ext: string, jobName: string, k: nat)
    requires k < |stem| && stem[k] != '.' && NoSeparator(stem, k, |stem|)
    requires '.' !in ext && '/' !in ext
    ensures SuppliedFileName(Some(stem + "." + ext), jobName) == stem + ".gcode"
  {
    var p := stem + "." + ext;
    var n := |stem|;
    assert p[k] == stem[k] && p[n] == '.';
    assert forall j :: n < j < |p| ==> p[j] == ext[j - n - 1];
    assert NoSeparator(p, k, |p|) by {
      forall j | k <= j < |p| ensures p[j] != '/' {
        if j < n { assert p[j] == stem[j]; }
      }
    }
    assert HasExtension(p);
    var root := SplitExtRoot(p);
    assert forall j :: n < j < |p| ==> p[j] != '.';
    assert |root| == n;
    assert root == p[..n] == stem;
  }

  /** A supplied name without an extension just gets `.gcode` appended. */
  lemma SuppliedNameWithoutExtension(name: string, jobName: string)
    requires name != [] && !HasExtension(name)
    ensures SuppliedFileName(Some(name), jobName) == name + ".gcode"
  {
  }

  /** A name whose only dot is a leading one, such as `.rc`, has no extension. */
  lemma LeadingDotIsNoExtension(name: string)
    requires |name| >= 2 && name[0] == '.' && '.' !in name[1..]
    ensures !HasExtension(name)
  {
    forall j | 1 <= j < |name| ensures name[j] != '.' {
      assert name[j] == name[1..][j - 1];
    }
  }

  /** The name accepted in the upload dialog: `.gcode` is appended when it
      neither ends in `.gcode` nor contains a dot. The `.gcode` test is subsumed
      by the dot test, so exactly the dot-free names change. */
  function AcceptedFileName(text: string): (r: string)
    ensures '.' in text ==> r == text
    ensures '.' !in text ==> r == text + ".gcode"
  {
    if !EndsWith(text, ".gcode") && '.' !in text then text + ".gcode"
    else
      assert '.' in text by {
        if EndsWith(text, ".gcode") { assert text[|text| - 6] == '.'; }
      }
      text
  }

  /** The accepted name always contains a dot, and accepting it again changes nothing. */
  lemma AcceptedFileNameIdempotent(text: string)
    ensures '.' in AcceptedFileName(text)
    ensures AcceptedFileName(AcceptedFileName(text)) == AcceptedFileName(text)
  {
    var r := AcceptedFileName(text);
    if '.' !in text {
      assert r[|text|] == '.';
    }
  }

  // ---------------------------------------------------------------------------
  // Requests

  /** `urlencode` of a list of pairs, without percent-escaping: `k=v&k=v`. */
  function EncodeQuery(q: Query): (r: string)
    ensures r == "" <==> q == []
  {
    if q == [] then ""
    else if |q| == 1 then q[0].0 + "=" + q[0].1
    else q[0].0 + "=" + q[0].1 + "&" + EncodeQuery(q[1..])
  }

  /** `url + "rr_" + command`, followed by `?` and the encoded query when that is non-empty. */
  function RequestUrl(base: string, command: string, q: Query): (r: string)
    ensures |base + "rr_" + command| <= |r| && r[..|base + "rr_" + command|] == base + "rr_" + command
    ensures q == [] <==> r == base + "rr_" + command
    ensures q != [] ==> r == base + "rr_" + command + "?" + EncodeQuery(q)
  {
    var e := EncodeQuery(q);
    base + "rr_" + command + (if e != "" then "?" + e else "")
  }

  /** Python truthiness of an optional string. */
  predicate Truthy(s: Option<string>)
  {
    s.Some? && s.value != ""
  }

  /** Basic-auth credentials, sent only when both user and password are set. */
  function Authorization(user: Option<string>, password: Option<string>): (r: Option<(string, string)>)
    ensures r.Some? <==> Truthy(user) && Truthy(password)
    ensures r.Some? ==> r.value == (user.value, password.value)
  {
    if Truthy(user) && Truthy(password) then Some((user.value, password.value)) else None
  }

  /** The body actually posted: `if data:` drops a missing or empty one. */
  function Payload(data: Option<string>): (r: Option<string>)
    ensures r.Some? <==> Truthy(data)
    ensures r.Some? ==> r == data
  {
    if Truthy(data) then data else None
  }

  function MethodOf(data: Option<string>): (m: Method)
    ensures m == Post <==> Payload(data).Some?
  {
    if Payload(data).Some? then Post else Get
  }

  /** The request `_send` builds. */
  function BuildRequest(base: string, command: string, q: Query,
                        user: Option<string>, password: Option<string>, data: Option<string>): (r: Request)
    ensures r.verb == Post <==> r.body.Some?
    ensures r.body.Some? ==> r.body == data && r.body.value != ""
    ensures r.body == Payload(data) && r.verb == MethodOf(data)
    ensures r.authorization == Authorization(user, password)
    ensures r.url == RequestUrl(base, command, q)
  {
    Request(RequestUrl(base, command, q), MethodOf(data), Authorization(user, password), Payload(data))
  }

  /** The log entry `_send` records. */
  function CallOf(command: string, q: Query, data: Option<string>): (c: Call)
    ensures c.verb == Post <==> c.body.Some?
    ensures c.body == Payload(data) && c.verb == MethodOf(data)
    ensures c.command == command && c.query == q
  {
    Call(command, q, MethodOf(data), Payload(data))
  }

  // ---------------------------------------------------------------------------
  // Progress and buffering

  /** Python's `int(a / b)` for positive `b`: division truncating toward zero. */
  function TruncDiv(a: int, b: int): int
    requires b > 0
  {
    if a >= 0 then a / b else -((-a) / b)
  }

  /** The percentage `_onUploadProgress` reports, if any. */
  function UploadPercent(sent: int, total: int): (r: Option<int>)
    ensures r.Some? <==> total > 0
    ensures r.Some? && 0 <= sent ==> 0 <= r.value && r.value * total <= sent * 100 < (r.value + 1) * total
  {
    if total > 0 then Some(TruncDiv(sent * 100, total)) else None
  }

  /** Reported upload progress lies in 0..100 and is 100 exactly at completion. */
  lemma UploadPercentBounds(sent: int, total: int)
    requires 0 <= sent <= total && total > 0
    ensures 0 <= UploadPercent(sent, total).value <= 100
    ensures UploadPercent(sent, total).value == 100 <==> sent == total
  {
    var p := UploadPercent(sent, total).value;
    CancelFactor(p, 100, total);
    if sent == total {
      CancelFactorStrict(100, p + 1, total);
    }
  }

  /** More bytes sent never reports less progress. */
  lemma UploadPercentMonotone(s1: int, s2: int, total: int)
    requires 0 <= s1 <= s2 && total > 0
    ensures UploadPercent(s1, total).value <= UploadPercent(s2, total).value
  {
    var p1, p2 := UploadPercent(s1, total).value, UploadPercent(s2, total).value;
    CancelFactorStrict(p1, p2 + 1, total);
  }

  lemma CancelFactor(a: int, b: int, c: int)
    requires c > 0 && a * c <= b * c
    ensures a <= b
  {
  }

  lemma CancelFactorStrict(a: int, b: int, c: int)
    requires c > 0 && a * c < b * c
    ensures a < b
  {
  }

  /** The in-order concatenation of the G-code lines. */
  function Concat(lines: seq<string>): string
  {
    if lines == [] then "" else Concat(lines[..|lines| - 1]) + lines[|lines| - 1]
  }

  lemma {:induction false} ConcatAppend(a: seq<string>, b: seq<string>)
    ensures Concat(a + b) == Concat(a) + Concat(b)
    decreases |b|
  {
    if b == [] {
      assert a + b == a;
    } else {
      var b' := b[..|b| - 1];
      assert (a + b)[..|a + b| - 1] == a + b';
      ConcatAppend(a, b');
    }
  }

  /** The progress signals the buffering loop emits over its first `k` lines
      when `ticks[i]` says the 50 ms yield deadline had passed at line `i`. */
  function BufferProgress(lines: nat, ticks: seq<bool>, k: nat): seq<Signal>
  {
    if k == 0 then []
    else BufferProgress(lines, ticks, k - 1)
         + (if k - 1 < |ticks| && ticks[k - 1] then [WriteProgress(k, lines)] else [])
  }

  /** Buffer progress is a fraction in (0, 1] that strictly increases. */
  lemma {:induction false} BufferProgressIncreasing(lines: nat, ticks: seq<bool>, k: nat)
    requires k <= lines
    ensures forall i :: 0 <= i < |BufferProgress(lines, ticks, k)| ==>
      var s := BufferProgress(lines, ticks, k)[i];
      s.WriteProgress? && s.den == lines && 1 <= s.num <= k
    ensures forall i, j :: 0 <= i < j < |BufferProgress(lines, ticks, k)| ==>
      BufferProgress(lines, ticks, k)[i].num < BufferProgress(lines, ticks, k)[j].num
  {
    if k > 0 {
      BufferProgressIncreasing(lines, ticks, k - 1);
    }
  }

  // ---------------------------------------------------------------------------
  // The request sequence of a session

  function ConnectCall(password: string, now: string): Call
  {
    CallOf("connect", [("password", password), ("time", now)], None)
  }

  function UploadCall(fileName: string, now: string, buffer: string): Call
  {
    CallOf("upload", [("name", "0:/gcodes/" + fileName), ("time", now)], Some(buffer))
  }

  function GcodeCall(code: string): Call
  {
    CallOf("gcode", [("gcode", code)], None)
  }

  function StartPrintCode(fileName: string): string
  {
    "M32 /gcodes/" + fileName
  }

  const StatusCall: Call := CallOf("status", [("type", "3")], None)
  const ReplyCall: Call := CallOf("reply", [], None)
  const DisconnectCall: Call := CallOf("disconnect", [], None)

  /** Status codes that mean the device is still simulating (both firmware spellings). */
  predicate StillSimulating(code: string)
  {
    code == "P" || code == "M"
  }

  /** Whether a decoded `status` value compares equal to `'P'` or `'M'`. */
  predicate StillSimulatingValue(v: JsonValue)
  {
    v.JsonString? && StillSimulating(v.text)
  }

  predicate IsDigit(c: char)
  {
    '0' <= c <= '9'
  }

  predicate IsSpace(c: char)
  {
    c == ' ' || c == '\t' || c == '\n' || c == '\r' || c == '\U{B}' || c == '\U{C}'
  }

  /** The text without leading white space. */
  function TrimStart(t: string): (u: string)
    ensures |u| <= |t| && u == t[|t| - |u|..]
    ensures forall i :: 0 <= i < |t| - |u| ==> IsSpace(t[i])
    ensures u != [] ==> !IsSpace(u[0])
  {
    if t != [] && IsSpace(t[0]) then TrimStart(t[1..]) else t
  }

  /** The text without trailing white space. */
  function TrimEnd(t: string): (u: string)
    ensures |u| <= |t| && u == t[..|u|]
    ensures forall i :: |u| <= i < |t| ==> IsSpace(t[i])
    ensures u != [] ==> !IsSpace(u[|u| - 1])
  {
    if t != [] && IsSpace(t[|t| - 1]) then TrimEnd(t[..|t| - 1]) else t
  }

  /** `t` is `u` with only white space before it (up to index `a`) and after it. */
  predicate SpacedAt(t: string, u: string, a: nat)
  {
    && a + |u| <= |t| && u == t[a..a + |u|]
    && (forall i :: 0 <= i < a ==> IsSpace(t[i]))
    && (forall i :: a + |u| <= i < |t| ==> IsSpace(t[i]))
  }

  /** The text without leading or trailing white space, as `str.strip` gives. */
  function Trim(t: string): (u: string)
    ensures exists a :: SpacedAt(t, u, a)
    ensures u != [] ==> !IsSpace(u[0]) && !IsSpace(u[|u| - 1])
    ensures (forall i :: 0 <= i < |t| ==> !IsSpace(t[i])) ==> u == t
  {
    TrimSpaced(t);
    TrimEnd(TrimStart(t))
  }

  /** Trimming drops exactly the white space before and after the rest. */
  lemma TrimSpaced(t: string)
    ensures SpacedAt(t, TrimEnd(TrimStart(t)), |t| - |TrimStart(t)|)
  {
    var s := TrimStart(t);
    TrimEndInside(t, s, |t| - |s|);
  }

  /** Trimming the end of the suffix `s` of `t` leaves a slice of `t` with
      white space after it. */
  lemma TrimEndInside(t: string, s: string, a: nat)
    requires a + |s| == |t| && s == t[a..]
    ensures var u := TrimEnd(s);
      && u == t[a..a + |u|]
      && forall i :: a + |u| <= i < |t| ==> IsSpace(t[i])
  {
    var u := TrimEnd(s);
    assert u == s[..|u|];
    forall i | a + |u| <= i < |t|
      ensures IsSpace(t[i])
    {
      assert t[i] == s[i - a];
    }
  }

  /** Trimming a text with white space only before `p` and from `p + n` on,
      and non-space characters at both ends of the rest, leaves that rest. */
  lemma TrimUnique(t: string, p: nat, n: nat)
    requires p + n <= |t|
    requires forall i :: 0 <= i < p ==> IsSpace(t[i])
    requires forall i :: p + n <= i < |t| ==> IsSpace(t[i])
    requires n > 0 ==> !IsSpace(t[p]) && !IsSpace(t[p + n - 1])
    ensures Trim(t) == t[p..p + n]
  {
    var r := Trim(t);
    var a: nat :| SpacedAt(t, r, a);
    if n == 0 {
      assert forall i :: 0 <= i < |t| ==> IsSpace(t[i]);
    } else {
      assert a <= p by {
        assert !IsSpace(t[p]);
      }
      assert p + n <= a + |r| by {
        assert !IsSpace(t[p + n - 1]);
      }
      assert a == p by {
        assert r[0] == t[a];
      }
      assert a + |r| == p + n by {
        assert r[|r| - 1] == t[a + |r| - 1];
      }
    }
  }

  /** Trimming removes exactly the white space around the text: `" 1 "` becomes `"1"`. */
  lemma TrimDropsPadding(pre: string, u: string, post: string)
    requires forall i :: 0 <= i < |pre| ==> IsSpace(pre[i])
    requires forall i :: 0 <= i < |post| ==> IsSpace(post[i])
    requires u != [] ==> !IsSpace(u[0]) && !IsSpace(u[|u| - 1])
    ensures Trim(pre + u + post) == u
  {
    var t := pre + u + post;
    var p := |pre|;
    assert forall i :: 0 <= i < p ==> t[i] == pre[i];
    assert forall i :: p + |u| <= i < |t| ==> t[i] == post[i - p - |u|];
    assert t[p..p + |u|] == u;
    TrimUnique(t, p, |u|);
  }

  /** The text without one leading sign. */
  function Unsigned(t: string): (u: string)
    ensures |u| <= |t| && u == t[|t| - |u|..]
    ensures |u| < |t| <==> t != [] && (t[0] == '+' || t[0] == '-')
  {
    if |t| > 0 && (t[0] == '+' || t[0] == '-') then t[1..] else t
  }

  /** The first index of a character of `cs`, or `|s|` when there is none. */
  function FirstOf(s: string, cs: set<char>): (i: nat)
    ensures i <= |s| && (i < |s| ==> s[i] in cs)
    ensures forall j :: 0 <= j < i ==> s[j] !in cs
  {
    if s == [] then 0
    else if s[0] in cs then 0
    else 1 + FirstOf(s[1..], cs)
  }

  function LowerAscii(c: char): char
  {
    if 'A' <= c <= 'Z' then (c as int + 32) as char else c
  }

  /** `s` spells `word` (lower case) in any mixture of cases. */
  predicate SpellsIgnoringCase(s: string, word: string)
  {
    |s| == |word| && forall i :: 0 <= i < |s| ==> LowerAscii(s[i]) == word[i]
  }

  /** Digits, with single underscores allowed between two of them. */
  predicate DigitPart(s: string)
  {
    && s != [] && IsDigit(s[0]) && IsDigit(s[|s| - 1])
    && (forall i :: 0 <= i < |s| ==> IsDigit(s[i]) || s[i] == '_')
    && (forall i :: 0 <= i < |s| - 1 && s[i] == '_' ==> IsDigit(s[i + 1]))
  }

  /** Digits with an optional dot, and at least one digit. */
  predicate Mantissa(m: string)
  {
    var d := FirstOf(m, {'.'});
    if d == |m| then DigitPart(m)
    else
      var whole, fraction := m[..d], m[d + 1..];
      && (whole == [] || DigitPart(whole))
      && (fraction == [] || DigitPart(fraction))
      && (whole != [] || fraction != [])
  }

  /** A mantissa with an optional exponent `e`/`E`, sign and digits. */
  predicate Numeral(u: string)
  {
    var e := FirstOf(u, {'e', 'E'});
    Mantissa(u[..e]) && (e == |u| || DigitPart(Unsigned(u[e + 1..])))
  }

  /** A string Python's `float` accepts: white space around an optional sign
      followed by a numeral or by `inf`, `infinity` or `nan` in any case. */
  predicate FloatLiteral(t: string)
  {
    var u := Unsigned(Trim(t));
    || Numeral(u)
    || SpellsIgnoringCase(u, "inf") || SpellsIgnoringCase(u, "infinity") || SpellsIgnoringCase(u, "nan")
  }

  /** The exception `float(v)` raises, if any: numbers and booleans convert, a
      string converts when it is a decimal literal, and null, arrays and objects
      are the wrong type. */
  function FloatError(v: JsonValue): (r: Option<Error>)
    ensures r.None? <==> v.JsonNumber? || v.JsonBool? || (v.JsonString? && FloatLiteral(v.text))
    ensures r.Some? ==> r.value == (if v.JsonString? then ValueError else TypeError)
  {
    match v
    case JsonNumber => None
    case JsonBool => None
    case JsonString(t) => if FloatLiteral(t) then None else Some(ValueError)
    case _ => Some(TypeError)
  }

  /** A string without any character of `cs` has none to find. */
  lemma FirstOfAbsent(s: string, cs: set<char>)
    requires forall i :: 0 <= i < |s| ==> s[i] !in cs
    ensures FirstOf(s, cs) == |s|
  {
  }

  /** A numeral with no white space and no sign is a float literal. */
  lemma NumeralIsFloatLiteral(u: string)
    requires forall i :: 0 <= i < |u| ==> IsDigit(u[i]) || u[i] == '.'
    requires Numeral(u)
    ensures FloatLiteral(u)
  {
    PlainTextUntouched(u);
  }

  /** Text of digits and dots has no white space and no sign to drop. */
  lemma PlainTextUntouched(u: string)
    requires forall i :: 0 <= i < |u| ==> IsDigit(u[i]) || u[i] == '.'
    ensures Unsigned(Trim(u)) == u
  {
    assert Trim(u) == u;
    assert u == [] || IsDigit(u[0]) || u[0] == '.';
  }

  /** Digits and dots alone contain no exponent. */
  lemma NoExponent(u: string)
    requires forall i :: 0 <= i < |u| ==> IsDigit(u[i]) || u[i] == '.'
    ensures Numeral(u) <==> Mantissa(u)
  {
    FirstOfAbsent(u, {'e', 'E'});
    assert u[..|u|] == u;
  }

  /** A digit string is a numeral on its own. */
  lemma DigitsAreFloatLiteral(whole: string)
    requires whole != [] && forall i :: 0 <= i < |whole| ==> IsDigit(whole[i])
    ensures FloatLiteral(whole)
  {
    FirstOfAbsent(whole, {'.'});
    NoExponent(whole);
    NumeralIsFloatLiteral(whole);
  }

  /** Digits, a dot and optional further digits form a mantissa. */
  lemma DecimalIsMantissa(whole: string, fraction: string)
    requires whole != [] && forall i :: 0 <= i < |whole| ==> IsDigit(whole[i])
    requires forall i :: 0 <= i < |fraction| ==> IsDigit(fraction[i])
    ensures Mantissa(whole + "." + fraction)
  {
    var m := whole + "." + fraction;
    assert FirstOf(m, {'.'}) == |whole| by {
      assert m[|whole|] == '.' && forall j :: 0 <= j < |whole| ==> m[j] == whole[j];
    }
    assert m[..|whole|] == whole && m[|whole| + 1..] == fraction;
  }

  /** Digits, a dot and optional further digits form a float literal. */
  lemma DecimalIsFloatLiteral(whole: string, fraction: string)
    requires whole != [] && forall i :: 0 <= i < |whole| ==> IsDigit(whole[i])
    requires forall i :: 0 <= i < |fraction| ==> IsDigit(fraction[i])
    ensures FloatLiteral(whole + "." + fraction)
  {
    var m := whole + "." + fraction;
    forall i | 0 <= i < |m|
      ensures IsDigit(m[i]) || m[i] == '.'
    {
      if i < |whole| {
        assert m[i] == whole[i];
      } else if i > |whole| {
        assert m[i] == fraction[i - |whole| - 1];
      }
    }
    DecimalIsMantissa(whole, fraction);
    NoExponent(m);
    NumeralIsFloatLiteral(m);
  }

  /** The characters a numeral is made of. */
  predicate NumeralChar(c: char)
  {
    IsDigit(c) || c == '_' || c == '.' || c == 'e' || c == 'E' || c == '+' || c == '-'
  }

  /** The letters of `inf`, `infinity` and `nan` in either case. */
  predicate SpecialNameChar(c: char)
  {
    LowerAscii(c) in "inf" || LowerAscii(c) in "infinity" || LowerAscii(c) in "nan"
  }

  lemma MantissaAlphabet(m: string)
    requires Mantissa(m)
    ensures forall i :: 0 <= i < |m| ==> NumeralChar(m[i])
  {
    var d := FirstOf(m, {'.'});
    if d < |m| {
      var whole, fraction := m[..d], m[d + 1..];
      forall i | 0 <= i < |m|
        ensures NumeralChar(m[i])
      {
        if i < d {
          assert m[i] == whole[i];
        } else if i > d {
          assert m[i] == fraction[i - d - 1];
        }
      }
    }
  }

  /** Every character of a numeral is a digit, `_`, `.`, `e`, `E` or a sign. */
  lemma NumeralAlphabet(u: string)
    requires Numeral(u)
    ensures forall i :: 0 <= i < |u| ==> NumeralChar(u[i])
  {
    var e := FirstOf(u, {'e', 'E'});
    PrefixAlphabet(u, e);
    if e < |u| {
      SuffixAlphabet(u, e);
      assert u[e] in {'e', 'E'};
    }
  }

  /** The characters before index `e` form a mantissa, so they are numeral characters. */
  lemma PrefixAlphabet(u: string, e: nat)
    requires e <= |u| && Mantissa(u[..e])
    ensures forall i :: 0 <= i < e ==> NumeralChar(u[i])
  {
    MantissaAlphabet(u[..e]);
    forall i | 0 <= i < e
      ensures NumeralChar(u[i])
    {
      assert u[i] == u[..e][i];
    }
  }

  /** The characters after index `e` form an exponent, so they are numeral characters. */
  lemma SuffixAlphabet(u: string, e: nat)
    requires e < |u| && DigitPart(Unsigned(u[e + 1..]))
    ensures forall i :: e < i < |u| ==> NumeralChar(u[i])
  {
    var rest := u[e + 1..];
    var v := Unsigned(rest);
    forall i | e < i < |u|
      ensures NumeralChar(u[i])
    {
      assert u[i] == rest[i - e - 1];
      if i - e - 1 >= |rest| - |v| {
        assert rest[i - e - 1] == v[i - e - 1 - (|rest| - |v|)];
      }
    }
  }

  /** Trimming and dropping a sign keep every character that is neither space nor sign. */
  lemma KeptByTrimAndSign(t: string, k: nat) returns (n: nat)
    requires k < |t| && !IsSpace(t[k]) && t[k] != '+' && t[k] != '-'
    ensures n < |Unsigned(Trim(t))| && Unsigned(Trim(t))[n] == t[k]
  {
    var s := TrimStart(t);
    var r := TrimEnd(s);
    var u := Unsigned(r);
    var j := k - (|t| - |s|);
    assert 0 <= j < |s| && s[j] == t[k];
    assert j < |r| && r[j] == t[k];
    n := j - (|r| - |u|);
  }

  /** Only letters of the special names spell one of them. */
  lemma SpelledAlphabet(u: string, word: string, n: nat)
    requires word == "inf" || word == "infinity" || word == "nan"
    requires n < |u| && !SpecialNameChar(u[n])
    ensures !SpellsIgnoringCase(u, word)
  {
    if |u| == |word| {
      assert LowerAscii(u[n]) != word[n];
    }
  }

  /** A string holding a character that is neither white space, nor part of a
      numeral, nor a letter of a special name, is no float literal. */
  lemma ForeignCharIsNoFloatLiteral(t: string, k: nat)
    requires k < |t| && !IsSpace(t[k]) && !NumeralChar(t[k]) && !SpecialNameChar(t[k])
    ensures !FloatLiteral(t)
  {
    var u := Unsigned(Trim(t));
    var n := KeptByTrimAndSign(t, k);
    if Numeral(u) {
      NumeralAlphabet(u);
    }
    SpelledAlphabet(u, "inf", n);
    SpelledAlphabet(u, "infinity", n);
    SpelledAlphabet(u, "nan", n);
  }

  /** A value such as `"n/a"` makes `float` raise `ValueError`, and `null` a `TypeError`. */
  lemma NonNumericFractionsRaise()
    ensures FloatError(JsonString("n/a")) == Some(ValueError)
    ensures FloatError(JsonNull) == Some(TypeError)
  {
    ForeignCharIsNoFloatLiteral("n/a", 1);
  }

  /** The exception raised while showing a still-simulating reply's progress:
      `float` of `fractionPrinted` when the reply has one. */
  function ProgressError(fields: map<string, JsonValue>): (r: Option<Error>)
    ensures "fractionPrinted" !in fields ==> r.None?
    ensures "fractionPrinted" in fields ==> r == FloatError(fields["fractionPrinted"])
  {
    if "fractionPrinted" in fields then FloatError(fields["fractionPrinted"]) else None
  }

  function Repeat(c: Call, n: nat): (r: seq<Call>)
    ensures |r| == n && forall i :: 0 <= i < n ==> r[i] == c
  {
    if n == 0 then [] else Repeat(c, n - 1) + [c]
  }

  lemma {:induction false} RepeatCons(c: Call, n: nat)
    ensures [c] + Repeat(c, n) == Repeat(c, n + 1)
  {
    if n > 0 {
      RepeatCons(c, n - 1);
    }
  }

  /** The calls a successful session issues, `polls` being the number of
      status replies that said the simulation is still running. */
  function ExpectedCalls(mode: DeviceType, password: string, fileName: string, buffer: string,
                         connectTime: string, uploadTime: string, polls: nat): seq<Call>
  {
    [ConnectCall(password, connectTime), UploadCall(fileName, uploadTime, buffer)]
    + match mode
      case Print => [GcodeCall(StartPrintCode(fileName)), DisconnectCall]
      case Upload => [DisconnectCall]
      case Simulate =>
        [GcodeCall("M37 S1"), GcodeCall(StartPrintCode(fileName))]
        + Repeat(StatusCall, polls + 1)
        + [GcodeCall("M37 S0"), GcodeCall("M37"), ReplyCall, DisconnectCall]
  }

  /** The simulate sequence cut where the session's handlers append to it. */
  lemma SimulateCallsSplit(password: string, fileName: string, buffer: string, t1: string, t2: string, polls: nat)
    ensures ExpectedCalls(Simulate, password, fileName, buffer, t1, t2, polls)
      == [ConnectCall(password, t1), UploadCall(fileName, t2, buffer), GcodeCall("M37 S1"), GcodeCall(StartPrintCode(fileName))]
         + [StatusCall] + Repeat(StatusCall, polls) + [GcodeCall("M37 S0")]
         + [GcodeCall("M37"), ReplyCall, DisconnectCall]
  {
    RepeatCons(StatusCall, polls);
  }

  /** Every mode connects, uploads the buffer, and ends by disconnecting. */
  lemma SessionsShareConnectUpload(mode: DeviceType, password: string, fileName: string, buffer: string,
                                   t1: string, t2: string, polls: nat)
    ensures var calls := ExpectedCalls(mode, password, fileName, buffer, t1, t2, polls);
      |calls| >= 3 && calls[0].command == "connect" && calls[1].command == "upload"
      && calls[1].query[0] == ("name", "0:/gcodes/" + fileName)
      && (calls[1].verb == Post <==> buffer != "")
      && calls[|calls| - 1] == DisconnectCall
  {
  }

  /** Upload-only sessions never execute G-code. */
  lemma UploadSendsNoGcode(password: string, fileName: string, buffer: string, t1: string, t2: string, polls: nat)
    ensures forall c :: c in ExpectedCalls(Upload, password, fileName, buffer, t1, t2, polls) ==> c.command != "gcode"
  {
  }

  /** Print sessions issue exactly three calls before disconnecting, the last one `M32`. */
  lemma PrintStartsTheUploadedFile(password: string, fileName: string, buffer: string, t1: string, t2: string)
    ensures var calls := ExpectedCalls(Print, password, fileName, buffer, t1, t2, 0);
      |calls| == 4 && calls[2].command == "gcode" && calls[2].query == [("gcode", "M32 /gcodes/" + fileName)]
  {
  }

  function CountCommand(calls: seq<Call>, command: string): (n: nat)
    ensures n <= |calls|
  {
    if calls == [] then 0
    else CountCommand(calls[..|calls| - 1], command) + (if calls[|calls| - 1].command == command then 1 else 0)
  }

  lemma {:induction false} CountCommandAppend(a: seq<Call>, b: seq<Call>, command: string)
    ensures CountCommand(a + b, command) == CountCommand(a, command) + CountCommand(b, command)
    decreases |b|
  {
    if b != [] {
      var b' := b[..|b| - 1];
      assert (a + b)[..|a + b| - 1] == a + b';
      CountCommandAppend(a, b', command);
    } else {
      assert a + b == a;
    }
  }

  lemma {:induction false} CountAbsent(calls: seq<Call>, command: string)
    requires forall i :: 0 <= i < |calls| ==> calls[i].command != command
    ensures CountCommand(calls, command) == 0
  {
    if calls != [] {
      CountAbsent(calls[..|calls| - 1], command);
    }
  }

  lemma {:induction false} CountRepeat(c: Call, n: nat, command: string)
    ensures CountCommand(Repeat(c, n), command) == if c.command == command then n else 0
  {
    if n > 0 {
      CountRepeat(c, n - 1, command);
      assert Repeat(c, n)[..n - 1] == Repeat(c, n - 1);
    }
  }

  /** A simulation polls the status once more than the number of "still simulating" replies. */
  lemma SimulatePollCount(password: string, fileName: string, buffer: string, t1: string, t2: string, polls: nat)
    ensures CountCommand(ExpectedCalls(Simulate, password, fileName, buffer, t1, t2, polls), "status") == polls + 1
  {
    var pre := [ConnectCall(password, t1), UploadCall(fileName, t2, buffer), GcodeCall("M37 S1"), GcodeCall(StartPrintCode(fileName))];
    var polling := Repeat(StatusCall, polls + 1);
    var post := [GcodeCall("M37 S0"), GcodeCall("M37"), ReplyCall, DisconnectCall];
    SimulateCallsShape(password, fileName, buffer, t1, t2, polls);
    assert CountCommand(pre, "status") == 0 by {
      CountAbsent(pre, "status");
    }
    assert CountCommand(post, "status") == 0 by {
      CountAbsent(post, "status");
    }
    assert CountCommand(polling, "status") == polls + 1 by {
      CountRepeat(StatusCall, polls + 1, "status");
    }
    CountCommandAppend(pre, polling, "status");
    CountCommandAppend(pre + polling, post, "status");
  }

  lemma SimulateCallsShape(password: string, fileName: string, buffer: string, t1: string, t2: string, polls: nat)
    ensures ExpectedCalls(Simulate, password, fileName, buffer, t1, t2, polls)
      == ([ConnectCall(password, t1), UploadCall(fileName, t2, buffer), GcodeCall("M37 S1"), GcodeCall(StartPrintCode(fileName))]
          + Repeat(StatusCall, polls + 1))
         + [GcodeCall("M37 S0"), GcodeCall("M37"), ReplyCall, DisconnectCall]
  {
  }
}
