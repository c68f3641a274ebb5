// The benchmark portal's job (bench/src/bench/portal/structs.go): a job
// names the target's IPv4 address, and Setup derives from its third and
// fourth octets the team number and the five URLs the benchmark uses.
module Portal {
  import opened Common
  import Strconv

  const Domain: string := "isucon8.flying-chair.net"

  /** The index of the first '.' in s, if any. */
  function FirstDot(s: string): (r: Option<nat>)
    ensures r.Some? ==> r.value < |s| && s[r.value] == '.' && forall i :: 0 <= i < r.value ==> s[i] != '.'
    ensures r.None? ==> forall i :: 0 <= i < |s| ==> s[i] != '.'
  {
    if s == [] then None
    else if s[0] == '.' then Some(0)
    else match FirstDot(s[1..])
      case None => None
      case Some(i) => Some(i + 1)
  }

  predicate NoDot(s: string)
  {
    forall i :: 0 <= i < |s| ==> s[i] != '.'
  }

  /** What strings.SplitN(s, ".", n) can return: 1 to n parts, only the last of n parts holding dots. */
  predicate SplitShape(parts: seq<string>, n: nat)
  {
    1 <= |parts| <= n &&
    (forall i :: 0 <= i < |parts| - 1 ==> NoDot(parts[i])) &&
    (|parts| < n ==> NoDot(parts[|parts| - 1]))
  }

  /** A dot-free part in front of a split into n - 1 parts is a split into n parts. */
  lemma ShapeCons(x: string, rest: seq<string>, n: nat)
    requires n > 1 && NoDot(x) && SplitShape(rest, n - 1)
    ensures SplitShape([x] + rest, n)
  {
    var parts := [x] + rest;
    forall i | 0 <= i < |parts| - 1
      ensures NoDot(parts[i])
    {
      if i > 0 {
        assert parts[i] == rest[i - 1];
      }
    }
    assert parts[|parts| - 1] == rest[|rest| - 1];
  }

  /** The converse: a split into n parts is a dot-free part and a split into n - 1 parts. */
  lemma ShapeRest(parts: seq<string>, n: nat)
    requires SplitShape(parts, n) && |parts| > 1
    ensures n > 1 && NoDot(parts[0]) && SplitShape(parts[1..], n - 1)
  {
    var rest := parts[1..];
    forall i | 0 <= i < |rest| - 1
      ensures NoDot(rest[i])
    {
      assert rest[i] == parts[i + 1];
    }
    assert rest[|rest| - 1] == parts[|parts| - 1];
  }

  /**
   * strings.SplitN(s, ".", n): at most n parts, cut at the first n - 1
   * dots; the last part keeps the rest of s, dots included.
   */
  function SplitN(s: string, n: nat): (parts: seq<string>)
    requires n >= 1
    ensures SplitShape(parts, n)
  {
    if n == 1 then [s]
    else match FirstDot(s)
      case None => [s]
      case Some(i) =>
        var rest := SplitN(s[i + 1..], n - 1);
        assert NoDot(s[..i]);
        ShapeCons(s[..i], rest, n);
        [s[..i]] + rest
  }

  /** The parts joined back with dots. */
  function Join(parts: seq<string>): string
    requires parts != []
  {
    if |parts| == 1 then parts[0] else parts[0] + "." + Join(parts[1..])
  }

  /** Splitting and joining back gives the address again. */
  lemma {:induction false} JoinSplitN(s: string, n: nat)
    requires n >= 1
    ensures Join(SplitN(s, n)) == s
  {
    if n > 1 && FirstDot(s).Some? {
      var i := FirstDot(s).value;
      var x, y := s[..i], s[i + 1..];
      assert s == x + "." + y;
      calc {
        Join(SplitN(s, n));
        { SplitCons(x, y, n); }
        Join([x] + SplitN(y, n - 1));
        { JoinCons(x, SplitN(y, n - 1)); }
        x + "." + Join(SplitN(y, n - 1));
        { JoinSplitN(y, n - 1); }
        x + "." + y;
      }
    } else {
      assert SplitN(s, n) == [s];
    }
  }

  /** Joining parts and splitting again gives the parts back, when they have the shape of a split. */
  lemma {:induction false} SplitNJoin(parts: seq<string>, n: nat)
    requires SplitShape(parts, n)
    ensures SplitN(Join(parts), n) == parts
  {
    if |parts| == 1 {
      assert Join(parts) == parts[0];
      if n > 1 {
        assert FirstDot(parts[0]).None?;
      }
      assert SplitN(parts[0], n) == [parts[0]];
    } else {
      var rest := parts[1..];
      assert [parts[0]] + rest == parts;
      ShapeRest(parts, n);
      calc {
        SplitN(Join(parts), n);
        { JoinCons(parts[0], rest); }
        SplitN(parts[0] + "." + Join(rest), n);
        { SplitCons(parts[0], Join(rest), n); }
        [parts[0]] + SplitN(Join(rest), n - 1);
        { SplitNJoin(rest, n - 1); }
        [parts[0]] + rest;
      }
    }
  }

  lemma JoinCons(x: string, rest: seq<string>)
    requires rest != []
    ensures Join([x] + rest) == x + "." + Join(rest)
  {
    assert ([x] + rest)[1..] == rest;
  }

  /** An address cut at its first dot. */
  lemma SplitCons(x: string, y: string, n: nat)
    requires NoDot(x) && n > 1
    ensures SplitN(x + "." + y, n) == [x] + SplitN(y, n - 1)
  {
    var s := x + "." + y;
    FirstDotAfter(x, y);
    assert s[..|x|] == x;
    assert s[|x| + 1..] == y;
  }

  /** The first dot of x + "." + y, when x has none, is the one after x. */
  lemma {:induction false} FirstDotAfter(x: string, y: string)
    requires NoDot(x)
    ensures FirstDot(x + "." + y) == Some(|x|)
  {
    if x == [] {
      assert (x + "." + y)[0] == '.';
    } else {
      assert (x + "." + y)[1..] == x[1..] + "." + y;
      FirstDotAfter(x[1..], y);
    }
  }

  /** team - 1 on an int64, wrapping around at the bottom of the range. */
  function Dec64(v: int): (r: int)
    requires IsInt64(v)
    ensures IsInt64(r)
    ensures v > Int64Min ==> r == v - 1
    ensures v == Int64Min ==> r == Int64Max
  {
    if v == Int64Min then Int64Max else v - 1
  }

  /** The URLs a job targets. */
  datatype Urls = Urls(target: string, bank: string, log: string, internalBank: string, internalLog: string)

  /** The URLs of a team's servers, the fourth octet naming the target server. */
  function UrlsFor(num: string, team: int): Urls
  {
    var t := Strconv.FormatInt(team);
    Urls("https://b" + num + "-" + t + "." + Domain,
         "https://bank-" + t + "." + Domain,
         "https://logger-" + t + "." + Domain,
         "https://bank-" + t + "." + Domain,
         "https://loggerp-" + t + "." + Domain)
  }

  /** Why a target address is refused. */
  datatype SetupError = InvalidAddress(ip: string) | InvalidTeam(octet: string)

  class Job {
    const id: int
    const teamId: int
    const targetIP: string
    var targetURL: string
    var bankURL: string
    var logURL: string
    var internalBankURL: string
    var internalLogURL: string

    constructor (id: int, teamId: int, targetIP: string)
      ensures this.id == id && this.teamId == teamId && this.targetIP == targetIP
      ensures targetURL == "" && bankURL == "" && logURL == ""
      ensures internalBankURL == "" && internalLogURL == ""
    {
      this.id := id;
      this.teamId := teamId;
      this.targetIP := targetIP;
      targetURL, bankURL, logURL := "", "", "";
      internalBankURL, internalLogURL := "", "";
    }

    function Current(): Urls
      reads this
    {
      Urls(targetURL, bankURL, logURL, internalBankURL, internalLogURL)
    }

    /**
     * Setup: the address must split into four parts and its third part
     * must be a decimal int64; the team is that number less one. The URLs
     * are written only when both checks pass.
     */
    method Setup() returns (err: Option<SetupError>)
      modifies this
      ensures |SplitN(targetIP, 4)| != 4 ==> err == Some(InvalidAddress(targetIP))
      ensures |SplitN(targetIP, 4)| == 4 && !Strconv.ParseInt(SplitN(targetIP, 4)[2]).Parsed? ==>
        err == Some(InvalidTeam(SplitN(targetIP, 4)[2]))
      ensures err.None? <==> (|SplitN(targetIP, 4)| == 4 && Strconv.ParseInt(SplitN(targetIP, 4)[2]).Parsed?)
      ensures err.None? ==>
        Current() == UrlsFor(SplitN(targetIP, 4)[3], Dec64(Strconv.ParseInt(SplitN(targetIP, 4)[2]).value))
      ensures err.Some? ==> Current() == old(Current())
    {
      var octets := SplitN(targetIP, 4);
      if |octets| != 4 {
        return Some(InvalidAddress(targetIP));
      }
      var teamText, num := octets[2], octets[3];
      var parsed := Strconv.ParseInt(teamText);
      if !parsed.Parsed? {
        return Some(InvalidTeam(teamText));
      }
      var team := Dec64(parsed.value);
      var urls := UrlsFor(num, team);
      targetURL := urls.target;
      bankURL := urls.bank;
      logURL := urls.log;
      internalBankURL := urls.internalBank;
      internalLogURL := urls.internalLog;
      return None;
    }
  }

  /**
   * The address of team t's benchmark subnet, a.b.(t+1).num, sets up the
   * URLs of team t on server num, whatever the fourth part holds.
   */
  lemma SetupOfSubnet(a: string, b: string, t: int, num: string)
    requires NoDot(a) && NoDot(b)
    requires IsInt64(t) && IsInt64(t + 1)
    ensures var ip := Join([a, b, Strconv.FormatInt(t + 1), num]);
      |SplitN(ip, 4)| == 4 && Strconv.ParseInt(SplitN(ip, 4)[2]) == Strconv.Parsed(t + 1)
      && UrlsFor(SplitN(ip, 4)[3], Dec64(t + 1)) == UrlsFor(num, t)
  {
    var third := Strconv.FormatInt(t + 1);
    assert NoDot(third) by {
      if t + 1 < 0 {
        assert third == "-" + Strconv.FormatNat(-(t + 1));
      }
      NoDotInDigits(t + 1);
    }
    SplitNJoin([a, b, third, num], 4);
    Strconv.ParseFormatRoundTrip(t + 1);
  }

  /** A number written in decimal has no dot. */
  lemma NoDotInDigits(n: int)
    ensures NoDot(Strconv.FormatInt(n))
  {
    var d := Strconv.FormatNat(if n < 0 then -n else n);
    assert Strconv.AllDigits(d);
    if n < 0 {
      assert Strconv.FormatInt(n) == "-" + d;
      assert forall i :: 1 <= i < |"-" + d| ==> ("-" + d)[i] == d[i - 1];
    }
  }

  /** An address of fewer than four dot-separated parts is refused. */
  lemma ShortAddressRefused(parts: seq<string>)
    requires 1 <= |parts| < 4 && forall i :: 0 <= i < |parts| ==> NoDot(parts[i])
    ensures |SplitN(Join(parts), 4)| != 4
  {
    SplitNJoin(parts, 4);
  }
}
