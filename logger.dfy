/**
 * The log line `logger(ip, level, ...messages)` prints.
 *
 * The environment variables are read as `Option<string>` (None when unset);
 * `LOG_NO_ENCODE` is read once, when the logger loads, and decides which
 * `cyrb53` the logger uses (an `Encoder`). The outside world enters as
 * parameters: `isIP` is `net.isIP` (0 for a string that is not an address),
 * `paint` is the chalk colour function of a colour key, and `now` is
 * `new Date().toISOString()`. What `console.log` would print is the result.
 */
module Logger {
  import opened Wrappers
  import opened Strings
  import opened Cyrb53
  import opened Utf16

  /** The keys of `COLOURS`. */
  datatype Colour = App | Db | Api | Client | Log | Mail | Auth | Err | Error

  function KeyOf(c: Colour): string
  {
    match c
    case App => "app"
    case Db => "db"
    case Api => "api"
    case Client => "client"
    case Log => "log"
    case Mail => "mail"
    case Auth => "auth"
    case Err => "err"
    case Error => "error"
  }

  /** `COLOURS[key]`: the colour with that key, or None (`undefined`) for any other string. */
  function ColourFor(key: string): (r: Option<Colour>)
    ensures r.Some? ==> KeyOf(r.value) == key
    ensures r.None? ==> forall c: Colour :: KeyOf(c) != key
  {
    match key
    case "app" => Some(App)
    case "db" => Some(Db)
    case "api" => Some(Api)
    case "client" => Some(Client)
    case "log" => Some(Log)
    case "mail" => Some(Mail)
    case "auth" => Some(Auth)
    case "err" => Some(Err)
    case "error" => Some(Error)
    case _ => None
  }

  /** Every colour is found under its own key. */
  lemma ColourRoundTrip(c: Colour)
    ensures ColourFor(KeyOf(c)) == Some(c)
  {
  }

  /** The environment variables `logger` reads on every call. */
  datatype Env = Env(logNone: Option<string>, logNoDate: Option<string>, logIpHidden: Option<string>)

  /** What a call to `logger` does: nothing, print one line, or throw because the colour key is unknown. */
  datatype Outcome = Silent | Printed(line: string) | NoColour(key: string)

  /** The colour key: `ip` itself when it is not an address, otherwise `level`. */
  function ColourKey(isIP: string -> nat, ip: string, level: string): string
  {
    if isIP(ip) == 0 then ip else level
  }

  /** The coloured text: `level` glued to the joined messages when `ip` is not an address, otherwise the joined messages. */
  function Message(isIP: string -> nat, ip: string, level: string, messages: seq<string>): (r: string)
    ensures EndsWith(r, JoinWith(messages, " "))
  {
    if isIP(ip) == 0 then level + JoinWith(messages, " ") else JoinWith(messages, " ")
  }

  /**
   * The client's name in the line: the address, unless `LOG_IP_HIDDEN` is set
   * and the hash is in use, then the decimal text of the address's hash.
   */
  function ClientLabel(e: Encoder, env: Env, ip: string): (r: string)
    ensures env.logIpHidden.None? || e == Identity ==> r == ip
    ensures env.logIpHidden.Some? && e == Hashing ==> r == Decimal(Hash(UnitWords(ip), 0))
  {
    if env.logIpHidden.Some? then
      match Encode(e, ip, 0)
      case Hashed(n) => Decimal(n)
      case Unchanged(s) => s
    else ip
  }

  /** The date unless `LOG_NO_DATE` is set, then the painted client prefix when `ip` is an address. */
  function Prefix(e: Encoder, env: Env, isIP: string -> nat, paint: (Colour, string) -> string, now: string, ip: string): string
  {
    (if env.logNoDate.None? then now + ": " else "")
    + (if isIP(ip) == 0 then "" else paint(Client, ClientLabel(e, env, ip) + ": "))
  }

  /** One call of `logger`. */
  function LogCall(e: Encoder, env: Env, isIP: string -> nat, paint: (Colour, string) -> string, now: string,
                   ip: string, level: string, messages: seq<string>): (r: Outcome)
    ensures r == Silent <==> env.logNone.Some?
    ensures r.NoColour? <==> env.logNone.None? && ColourFor(ColourKey(isIP, ip, level)).None?
    ensures r.NoColour? ==> r.key == ColourKey(isIP, ip, level)
    ensures r.Printed? ==> Trim(r.line) == r.line
  {
    if env.logNone.Some? then Silent
    else
      var key := ColourKey(isIP, ip, level);
      match ColourFor(key)
      case None => NoColour(key)
      case Some(c) =>
        var line := Trim(Prefix(e, env, isIP, paint, now, ip) + paint(c, Message(isIP, ip, level, messages)));
        TrimIdempotent(Prefix(e, env, isIP, paint, now, ip) + paint(c, Message(isIP, ip, level, messages)));
        Printed(line)
  }

  /** With `LOG_NO_DATE` set the clock plays no part: the outcome is the same at any time. */
  lemma NoDateIgnoresClock(e: Encoder, env: Env, isIP: string -> nat, paint: (Colour, string) -> string,
                           now: string, now': string, ip: string, level: string, messages: seq<string>)
    requires env.logNoDate.Some?
    ensures LogCall(e, env, isIP, paint, now, ip, level, messages) == LogCall(e, env, isIP, paint, now', ip, level, messages)
  {
  }

  /** When something is printed, it is the trimmed prefix followed by the painted message. */
  lemma PrintedLine(e: Encoder, env: Env, isIP: string -> nat, paint: (Colour, string) -> string, now: string,
                    ip: string, level: string, messages: seq<string>)
    requires env.logNone.None? && ColourFor(ColourKey(isIP, ip, level)).Some?
    ensures LogCall(e, env, isIP, paint, now, ip, level, messages)
         == Printed(Trim(Prefix(e, env, isIP, paint, now, ip)
                         + paint(ColourFor(ColourKey(isIP, ip, level)).value, Message(isIP, ip, level, messages))))
  {
  }

  /**
   * With `LOG_NO_DATE` unset, a printed line starts with the date and a colon
   * (the space after the colon is trimmed away when nothing follows it).
   */
  lemma DateLeadsLine(e: Encoder, env: Env, isIP: string -> nat, paint: (Colour, string) -> string, now: string,
                      ip: string, level: string, messages: seq<string>)
    requires env.logNone.None? && env.logNoDate.None?
    requires ColourFor(ColourKey(isIP, ip, level)).Some?
    requires now != [] && !IsJsSpace(now[0])
    ensures LogCall(e, env, isIP, paint, now, ip, level, messages).Printed?
    ensures StartsWith(LogCall(e, env, isIP, paint, now, ip, level, messages).line, now + ":")
  {
    PrintedLine(e, env, isIP, paint, now, ip, level, messages);
    var client := if isIP(ip) == 0 then "" else paint(Client, ClientLabel(e, env, ip) + ": ");
    var p := paint(ColourFor(ColourKey(isIP, ip, level)).value, Message(isIP, ip, level, messages));
    assert Prefix(e, env, isIP, paint, now, ip) == now + ": " + client;
    DateHead(now, client, p);
  }

  /** The date and its colon survive trimming at the head of a line. */
  lemma DateHead(now: string, client: string, p: string)
    requires now != [] && !IsJsSpace(now[0])
    ensures StartsWith(Trim(now + ": " + client + p), now + ":")
  {
    var date := now + ": ";
    var s := date + client + p;
    AppendAssoc(date, client, p);
    PrefixOfAppend(date, client + p, |now| + 1);
    assert date[..|now| + 1] == now + ":";
    TrimKeepsFirst(s, |now| + 1);
  }

  /**
   * When `ip` is an address, the line starts with the date part and then the
   * painted client label and `: `, provided trimming cannot reach into them.
   */
  lemma ClientLeadsLine(e: Encoder, env: Env, isIP: string -> nat, paint: (Colour, string) -> string, now: string,
                        ip: string, level: string, messages: seq<string>)
    requires isIP(ip) != 0 && env.logNone.None? && ColourFor(level).Some?
    requires env.logNoDate.None? ==> now == [] || !IsJsSpace(now[0])
    requires Edged(paint(Client, ClientLabel(e, env, ip) + ": "))
    ensures LogCall(e, env, isIP, paint, now, ip, level, messages).Printed?
    ensures StartsWith(LogCall(e, env, isIP, paint, now, ip, level, messages).line,
                       (if env.logNoDate.None? then now + ": " else "") + paint(Client, ClientLabel(e, env, ip) + ": "))
  {
    assert ColourKey(isIP, ip, level) == level;
    PrintedLine(e, env, isIP, paint, now, ip, level, messages);
    var date := if env.logNoDate.None? then now + ": " else "";
    var pc := paint(Client, ClientLabel(e, env, ip) + ": ");
    var p := paint(ColourFor(level).value, Message(isIP, ip, level, messages));
    assert Prefix(e, env, isIP, paint, now, ip) == date + pc;
    ClientHead(env.logNoDate.None?, now, pc, p);
  }

  /** A painted client prefix that does not start or end with white space survives trimming, after the date part. */
  lemma ClientHead(dated: bool, now: string, pc: string, p: string)
    requires dated ==> now == [] || !IsJsSpace(now[0])
    requires Edged(pc)
    ensures StartsWith(Trim((if dated then now + ": " else "") + pc + p), (if dated then now + ": " else "") + pc)
  {
    var date := if dated then now + ": " else "";
    var a := date + pc;
    if dated {
      assert a[0] == (if now == [] then ':' else now[0]);
    } else {
      assert a[0] == pc[0];
    }
    assert a[|a| - 1] == pc[|pc| - 1];
    TrimKeepsHead(a, p);
  }

  /**
   * A printed line ends with the coloured message, in the colour of the key:
   * `ip` when it is not an address, `level` when it is. The message is `level`
   * followed by the joined messages, or the joined messages alone.
   */
  lemma MessageEndsLine(e: Encoder, env: Env, isIP: string -> nat, paint: (Colour, string) -> string, now: string,
                        ip: string, level: string, messages: seq<string>)
    requires env.logNone.None?
    requires ColourFor(ColourKey(isIP, ip, level)).Some?
    requires Edged(paint(ColourFor(ColourKey(isIP, ip, level)).value, Message(isIP, ip, level, messages)))
    ensures LogCall(e, env, isIP, paint, now, ip, level, messages).Printed?
    ensures EndsWith(LogCall(e, env, isIP, paint, now, ip, level, messages).line,
                     paint(ColourFor(ColourKey(isIP, ip, level)).value, Message(isIP, ip, level, messages)))
  {
    var p := paint(ColourFor(ColourKey(isIP, ip, level)).value, Message(isIP, ip, level, messages));
    PrintedLine(e, env, isIP, paint, now, ip, level, messages);
    TrimKeepsTail(Prefix(e, env, isIP, paint, now, ip), p);
  }

  /**
   * When `ip` is not an address it is the colour key and no client prefix is
   * written. The message is `level` followed directly by the messages joined
   * by single spaces; when there is at least one message and none holds a
   * space, splitting at single spaces gives them back. Without the date the
   * line is the trimmed coloured message alone.
   */
  lemma NotAnAddress(e: Encoder, env: Env, isIP: string -> nat, paint: (Colour, string) -> string, now: string,
                     ip: string, level: string, messages: seq<string>)
    requires isIP(ip) == 0
    ensures ColourKey(isIP, ip, level) == ip
    ensures Prefix(e, env, isIP, paint, now, ip) == (if env.logNoDate.None? then now + ": " else "")
    ensures var m := Message(isIP, ip, level, messages);
      |level| <= |m| && m[..|level|] == level && m[|level|..] == JoinWith(messages, " ")
    ensures (|messages| >= 1 && forall i :: 0 <= i < |messages| ==> ' ' !in messages[i]) ==>
      SplitOn(Message(isIP, ip, level, messages)[|level|..], ' ') == messages
    ensures env.logNone.None? && env.logNoDate.Some? && ColourFor(ip).Some? ==>
      LogCall(e, env, isIP, paint, now, ip, level, messages)
      == Printed(Trim(paint(ColourFor(ip).value, level + JoinWith(messages, " "))))
  {
    var joined := JoinWith(messages, " ");
    assert Message(isIP, ip, level, messages)[|level|..] == joined;
    if |messages| >= 1 && forall i :: 0 <= i < |messages| ==> ' ' !in messages[i] {
      SplitJoinRoundTrip(messages, ' ');
    }
    if env.logNone.None? && env.logNoDate.Some? && ColourFor(ip).Some? {
      assert Prefix(e, env, isIP, paint, now, ip) == "";
      assert "" + paint(ColourFor(ip).value, level + joined) == paint(ColourFor(ip).value, level + joined);
    }
  }

  /**
   * When `ip` is an address, `level` is the colour key: an unknown level
   * throws, and without the date the line is the painted client label and
   * `: `, then the joined messages in the level's colour, trimmed.
   */
  lemma AnAddress(e: Encoder, env: Env, isIP: string -> nat, paint: (Colour, string) -> string, now: string,
                  ip: string, level: string, messages: seq<string>)
    requires isIP(ip) != 0 && env.logNone.None?
    ensures LogCall(e, env, isIP, paint, now, ip, level, messages) == NoColour(level) <==> ColourFor(level).None?
    ensures env.logNoDate.Some? && ColourFor(level).Some? ==>
      LogCall(e, env, isIP, paint, now, ip, level, messages)
      == Printed(Trim(paint(Client, ClientLabel(e, env, ip) + ": ") + paint(ColourFor(level).value, JoinWith(messages, " "))))
  {
    if env.logNoDate.Some? && ColourFor(level).Some? {
      var pc := paint(Client, ClientLabel(e, env, ip) + ": ");
      assert Prefix(e, env, isIP, paint, now, ip) == pc;
    }
  }

  /**
   * With `LOG_IP_HIDDEN` set and the hash in use, the client label is the
   * decimal text of `cyrb53(ip)`: at most 16 digits, which read back as the
   * hash of the address's code units.
   */
  lemma HiddenLabelIsHash(env: Env, ip: string)
    requires env.logIpHidden.Some?
    ensures var name := ClientLabel(Hashing, env, ip);
      1 <= |name| <= 16
      && (forall i :: 0 <= i < |name| ==> IsDigit(name[i]))
      && DigitsValue(name) == Hash(UnitWords(ip), 0)
  {
    var n := Hash(UnitWords(ip), 0);
    DecimalRoundTrip(n);
    Pow10Sixteen();
    DecimalLength(n, 16);
  }

  /** With `LOG_IP_HIDDEN` set and the hash in use, an address enters the outcome only through its hash. */
  lemma HiddenAddressesByHash(env: Env, isIP: string -> nat, paint: (Colour, string) -> string, now: string,
                              ip: string, ip': string, level: string, messages: seq<string>)
    requires env.logIpHidden.Some? && isIP(ip) != 0 && isIP(ip') != 0
    requires Hash(UnitWords(ip), 0) == Hash(UnitWords(ip'), 0)
    ensures LogCall(Hashing, env, isIP, paint, now, ip, level, messages)
         == LogCall(Hashing, env, isIP, paint, now, ip', level, messages)
  {
  }

  /** With `LOG_NO_ENCODE` set, the address is shown as it is, hidden or not. */
  lemma IdentityLabel(env: Env, ip: string)
    ensures ClientLabel(Identity, env, ip) == ip
  {
  }

  lemma Pow10Sixteen()
    ensures Pow10(16) == 10_000_000_000_000_000
  {
    assert Pow10(4) == 10_000;
    assert Pow10(8) == 100_000_000;
    assert Pow10(12) == 1_000_000_000_000;
  }
}
