/** The producer job: build one datetime message and POST it to the API,
    retrying a bounded number of times. The network is the sequence of what
    each attempt gets back; sleeping between attempts is only counted. */
module Producer {
  import opened Wrappers

  /** ENVIRONMENT when the variable is unset. */
  const DefaultEnvironment := "prod"
  /** send_to_api's default number of attempts. */
  const DefaultMaxRetries := 3
  /** The status the API answers a stored message with. */
  const CreatedStatus := 201

  /** What one POST attempt gets: a status code, or a requests exception
      (connection error, timeout, ...). The network answers attempt `i`
      carrying body `m` with `network(i, m)`. */
  datatype Attempt = Status(code: int) | RequestException

  /** os.getenv('ENVIRONMENT', 'prod'): the default applies only when the
      variable is unset; a set but empty variable is kept. */
  function ConfiguredEnvironment(setting: Option<string>): (env: string)
    ensures setting.None? ==> env == DefaultEnvironment
    ensures setting.Some? ==> env == setting.value
  {
    setting.GetOr(DefaultEnvironment)
  }

  /** create_message: the payload has exactly the keys `datetime` (the
      formatted current time, passed in) and `environment`. */
  function CreateMessage(now: string, environment: string): (payload: map<string, string>)
    ensures payload.Keys == {"datetime", "environment"}
    ensures payload["datetime"] == now && payload["environment"] == environment
  {
    map["datetime" := now, "environment" := environment]
  }

  /** Whether some attempt among the first `n`, each carrying `message`,
      gets 201. */
  ghost predicate AcceptedWithin(network: (nat, map<string, string>) -> Attempt, message: map<string, string>, n: int) {
    exists i: nat :: i < n && network(i, message) == Status(CreatedStatus)
  }

  function Max0(n: int): nat {
    if n < 0 then 0 else n
  }

  /** send_to_api: attempt i posts `message` and gets `network(i, message)`.
      Succeeds at the first 201, without further attempts or sleeps; any
      other status or an exception is a failed attempt, followed by a sleep
      unless it was the last one. `posted` lists the bodies sent. */
  method SendToApi(message: map<string, string>, maxRetries: int, network: (nat, map<string, string>) -> Attempt)
    returns (sent: bool, ghost attempts: nat, ghost sleeps: nat, ghost posted: seq<map<string, string>>)
    ensures sent <==> AcceptedWithin(network, message, maxRetries)
    ensures attempts <= Max0(maxRetries)
    ensures |posted| == attempts && forall i :: 0 <= i < |posted| ==> posted[i] == message
    ensures sent ==> 1 <= attempts && network(attempts - 1, message) == Status(CreatedStatus)
                     && !AcceptedWithin(network, message, attempts - 1) && sleeps == attempts - 1
    ensures !sent ==> attempts == Max0(maxRetries) && sleeps == Max0(maxRetries - 1)
  {
    attempts, sleeps, posted := 0, 0, [];
    var attempt: nat := 0;
    while attempt < maxRetries
      invariant attempt <= Max0(maxRetries)
      invariant attempts == attempt
      invariant |posted| == attempt && forall i :: 0 <= i < |posted| ==> posted[i] == message
      invariant !AcceptedWithin(network, message, attempt)
      invariant sleeps == if attempt < maxRetries then attempt else Max0(attempt - 1)
    {
      attempts := attempts + 1;
      posted := posted + [message];
      var outcome := network(attempt, message);
      if outcome == Status(CreatedStatus) {
        return true, attempts, sleeps, posted;
      }
      if attempt < maxRetries - 1 {
        sleeps := sleeps + 1;
      }
      attempt := attempt + 1;
    }
    sent := false;
  }

  /** main: the configuration check always passes; the created message is
      sent with the default retry budget, and the job ends normally (exit
      status 0) whether or not the API took it. */
  method RunProducer(environmentSetting: Option<string>, now: string, network: (nat, map<string, string>) -> Attempt)
    returns (payload: map<string, string>, sent: bool, exitStatus: int, ghost posted: seq<map<string, string>>)
    ensures payload == CreateMessage(now, ConfiguredEnvironment(environmentSetting))
    ensures sent <==> AcceptedWithin(network, payload, DefaultMaxRetries)
    ensures 1 <= |posted| <= DefaultMaxRetries && forall i :: 0 <= i < |posted| ==> posted[i] == payload
    ensures exitStatus == 0
  {
    payload := CreateMessage(now, ConfiguredEnvironment(environmentSetting));
    ghost var attempts, sleeps;
    sent, attempts, sleeps, posted := SendToApi(payload, DefaultMaxRetries, network);
    exitStatus := 0;
  }
}
