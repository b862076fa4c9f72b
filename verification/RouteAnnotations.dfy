/** The default proxy timeout of a route, and how a human overrides it.  Nova, Cyborg
    and Placement do the same with a flag of their own. */
module RouteAnnotations {
  import opened Wrappers
  import opened Strings

  const PROXY := "haproxy.router.openshift.io/timeout"
  const NOVA := "api.nova.openstack.org/timeout"
  const CYBORG := "api.cyborg.openstack.org/timeout"
  const PLACEMENT := "api.placement.openstack.org/timeout"

  /** The annotation by which a service marks what its operator has set. */
  predicate IsFlag(flag: string) {
    flag == NOVA || flag == CYBORG || flag == PLACEMENT
  }

  lemma FlagsAreNotTheTimeout(flag: string)
    requires IsFlag(flag)
    ensures flag != PROXY
  {
    assert flag[0] == 'a' && PROXY[0] == 'h';
  }

  type Annotations = map<string, string>

  /** `%ds`. */
  function Seconds(n: int): string {
    (if n < 0 then "-" + Decimal(-n) else Decimal(n)) + "s"
  }

  /** The value is the number of seconds with its unit: it can be read back, so that no
      two timeouts look alike. */
  lemma SecondsReadBack(n: int)
    requires -INT64_MAX - 1 <= n <= INT64_MAX
    ensures var s := Seconds(n); s != "" && s[|s| - 1] == 's' && Atoi(s[..|s| - 1]) == Some(n)
  {
    var d := Decimal(if n < 0 then -n else n);
    ParseDecimal(if n < 0 then -n else n);
    AtoiForms(d);
    var s := Seconds(n);
    assert s[..|s| - 1] == if n < 0 then ['-'] + d else d;
  }

  function Latest(timeouts: seq<int>): string
    requires timeouts != []
  {
    Seconds(timeouts[|timeouts| - 1])
  }

  function SetDefault(a: Annotations, flag: string, timeout: int): Annotations {
    if flag !in a && PROXY in a then a
    else if flag in a && PROXY in a && a[flag] != a[PROXY] then a - {flag}
    else a[flag := Seconds(timeout)][PROXY := Seconds(timeout)]
  }

  class Route {
    var annotations: Annotations

    constructor (annotations: Annotations)
      ensures this.annotations == annotations
    {
      this.annotations := annotations;
    }

    method SetDefaultRouteAnnotations(flag: string, timeout: int)
      requires IsFlag(flag)
      modifies this
      ensures annotations == SetDefault(old(annotations), flag, timeout)
      ensures annotations - {flag, PROXY} == old(annotations) - {flag, PROXY}
    {
      FlagsAreNotTheTimeout(flag);
      var flagged, proxied := flag in annotations, PROXY in annotations;
      if !flagged && proxied { return; }
      if flagged && proxied && annotations[flag] != annotations[PROXY] {
        annotations := annotations - {flag};
        return;
      }
      var value := Seconds(timeout);
      annotations := annotations[flag := value];
      annotations := annotations[PROXY := value];
    }
  }

  /** A human set the proxy timeout: it differs from what the flag says. */
  predicate SetByHuman(a: Annotations, flag: string) {
    PROXY in a && (flag in a ==> a[flag] != a[PROXY])
  }

  /** Any number of defaulting calls with any timeouts. */
  function After(a: Annotations, flag: string, timeouts: seq<int>): Annotations
    decreases |timeouts|
  {
    if timeouts == [] then a else After(SetDefault(a, flag, timeouts[0]), flag, timeouts[1..])
  }

  /** What a human set stays for good, and stays recognizable as such. */
  lemma {:induction false} HumanValuePersists(a: Annotations, flag: string, timeouts: seq<int>)
    requires flag != PROXY && SetByHuman(a, flag)
    ensures var b := After(a, flag, timeouts);
            && SetByHuman(b, flag) && b[PROXY] == a[PROXY]
            && (timeouts != [] ==> flag !in b)
    decreases |timeouts|
  {
    if timeouts != [] {
      var b := SetDefault(a, flag, timeouts[0]);
      HumanValuePersists(b, flag, timeouts[1..]);
      if timeouts[1..] == [] { assert After(b, flag, timeouts[1..]) == b; }
    }
  }

  /** As long as no human interferes both annotations say the latest timeout. */
  lemma {:induction false} UntouchedFollowsTheLatest(a: Annotations, flag: string, timeouts: seq<int>)
    requires flag != PROXY && !SetByHuman(a, flag) && timeouts != []
    ensures var b := After(a, flag, timeouts);
            && flag in b && PROXY in b && b[flag] == b[PROXY] == Latest(timeouts)
            && !SetByHuman(b, flag)
    decreases |timeouts|
  {
    var b := SetDefault(a, flag, timeouts[0]);
    if |timeouts| == 1 {
      assert timeouts[1..] == [];
    } else {
      UntouchedFollowsTheLatest(b, flag, timeouts[1..]);
      assert timeouts[1..][|timeouts| - 2] == timeouts[|timeouts| - 1];
    }
  }

  lemma DefaultingIsIdempotent(a: Annotations, flag: string, timeout: int)
    requires flag != PROXY
    ensures SetDefault(SetDefault(a, flag, timeout), flag, timeout) == SetDefault(a, flag, timeout)
  {
  }

  /** After any later calls what a human wrote is in place exactly when it is not what
      the flag said at that moment, or is what the latest call writes anyway. */
  lemma HumanValueSurvivesIff(a: Annotations, flag: string, value: string, timeouts: seq<int>)
    requires flag != PROXY && flag in a && timeouts != []
    ensures var b := After(a[PROXY := value], flag, timeouts);
            PROXY in b && (b[PROXY] == value <==> a[flag] != value || value == Latest(timeouts))
  {
    var edited := a[PROXY := value];
    if a[flag] != value {
      HumanValuePersists(edited, flag, timeouts);
    } else {
      UntouchedFollowsTheLatest(edited, flag, timeouts);
    }
  }

  /** Removing the proxy timeout hands the route back to the operator. */
  lemma RemovingHandsBack(a: Annotations, flag: string, timeouts: seq<int>)
    requires flag != PROXY && timeouts != []
    ensures var b := After(a - {PROXY}, flag, timeouts);
            PROXY in b && b[PROXY] == Latest(timeouts)
  {
    UntouchedFollowsTheLatest(a - {PROXY}, flag, timeouts);
  }
}
