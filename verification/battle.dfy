/**
 * The battle-resolution endpoint (POST /api/battle/resolve-turn): given the
 * request body, whether the quiz answer was right and both health values,
 * it deals exactly one point of damage to one side and returns both health
 * values floored at zero.
 */
module Battle {
  import opened Wrappers

  /** The JSON values a request body field can hold, as far as this endpoint reads them. */
  datatype Json = JNull | JBool(b: bool) | JInt(i: int) | JString(s: string)

  type Body = map<string, Json>

  const WasAnswerCorrectKey := "wasAnswerCorrect"
  const PlayerHealthKey := "playerHealth"
  const BossHealthKey := "bossHealth"

  const CorrectMessage := "Correct! The opponent takes 1 point of damage."
  const IncorrectMessage := "Incorrect! You take 1 point of damage."
  const DamageDealt := 1

  datatype Target = Boss | Player

  datatype TurnResult = TurnResult(
    newPlayerHealth: int,
    newBossHealth: int,
    target: Target,
    damageDealt: int,
    message: string)

  /**
   * How the request fails: a missing key is answered with status 400 and
   * "Missing required data"; a health value that is not a number makes the
   * arithmetic or the max() raise, which the server answers with status 500.
   */
  datatype TurnError = MissingData | NotANumber

  /** The HTTP status the server answers a failed request with. */
  function Status(e: TurnError): int
  {
    match e
    case MissingData => 400
    case NotANumber => 500
  }

  predicate HasRequiredKeys(data: Body)
  {
    WasAnswerCorrectKey in data && PlayerHealthKey in data && BossHealthKey in data
  }

  /** Python truthiness of the answer flag: null, false, 0 and "" are the only false values. */
  function Truthy(v: Json): (r: bool)
    ensures !r <==> v == JNull || v == JBool(false) || v == JInt(0) || v == JString("")
  {
    match v
    case JNull => false
    case JBool(b) => b
    case JInt(i) => i != 0
    case JString(s) => s != ""
  }

  /** Python's max(0, x): the larger of zero and x. */
  function Max0(x: int): (r: int)
    ensures r >= 0 && r >= x
    ensures r == 0 || r == x
  {
    if x < 0 then 0 else x
  }

  function ResolveTurn(data: Body): (r: Result<TurnResult, TurnError>)
    ensures !HasRequiredKeys(data) ==> r == Err(MissingData)
    ensures r.Ok? ==>
      HasRequiredKeys(data) && data[PlayerHealthKey].JInt? && data[BossHealthKey].JInt?
    ensures r.Ok? ==>
      r.value.damageDealt == 1 && r.value.newPlayerHealth >= 0 && r.value.newBossHealth >= 0
    ensures r.Ok? ==> (r.value.target == Boss <==> Truthy(data[WasAnswerCorrectKey]))
    ensures r.Ok? && r.value.target == Boss ==>
      r.value.newBossHealth == Max0(data[BossHealthKey].i - 1) &&
      r.value.newPlayerHealth == Max0(data[PlayerHealthKey].i) &&
      r.value.message == CorrectMessage
    ensures r.Ok? && r.value.target == Player ==>
      r.value.newPlayerHealth == Max0(data[PlayerHealthKey].i - 1) &&
      r.value.newBossHealth == Max0(data[BossHealthKey].i) &&
      r.value.message == IncorrectMessage
    ensures HasRequiredKeys(data) && data[PlayerHealthKey].JInt? && data[BossHealthKey].JInt? ==> r.Ok?
    ensures HasRequiredKeys(data) && !(data[PlayerHealthKey].JInt? && data[BossHealthKey].JInt?) ==>
      r == Err(NotANumber)
    ensures r.Err? ==> (Status(r.error) == 400 <==> !HasRequiredKeys(data))
    ensures r.Err? ==> (Status(r.error) == 500 <==> HasRequiredKeys(data))
  {
    if !HasRequiredKeys(data) then Err(MissingData)
    else
      var wasAnswerCorrect := data[WasAnswerCorrectKey];
      var playerHealth := data[PlayerHealthKey];
      var bossHealth := data[BossHealthKey];
      if !playerHealth.JInt? || !bossHealth.JInt? then Err(NotANumber)
      else if Truthy(wasAnswerCorrect) then
        Ok(TurnResult(Max0(playerHealth.i), Max0(bossHealth.i - 1), Boss, DamageDealt, CorrectMessage))
      else
        Ok(TurnResult(Max0(playerHealth.i - 1), Max0(bossHealth.i), Player, DamageDealt, IncorrectMessage))
  }

  /** The body the front end sends for one answer. */
  function TurnRequest(wasAnswerCorrect: bool, playerHealth: int, bossHealth: int): Body
  {
    map[WasAnswerCorrectKey := JBool(wasAnswerCorrect),
        PlayerHealthKey := JInt(playerHealth),
        BossHealthKey := JInt(bossHealth)]
  }

  /** For non-negative health values no turn raises either side, and the target side loses at most one. */
  lemma {:induction false} NoHealthGained(wasAnswerCorrect: bool, playerHealth: nat, bossHealth: nat)
    ensures ResolveTurn(TurnRequest(wasAnswerCorrect, playerHealth, bossHealth)).Ok?
    ensures var t := ResolveTurn(TurnRequest(wasAnswerCorrect, playerHealth, bossHealth)).value;
      t.newPlayerHealth <= playerHealth && t.newBossHealth <= bossHealth &&
      t.newPlayerHealth + t.newBossHealth >= playerHealth + bossHealth - 1 &&
      (playerHealth > 0 && bossHealth > 0 ==> t.newPlayerHealth + t.newBossHealth == playerHealth + bossHealth - 1)
  {
  }

  /** Boss health after k right answers in a row, each fed the previous response. */
  function BossAfterCorrectAnswers(playerHealth: int, bossHealth: int, k: nat): int
  {
    if k == 0 then bossHealth
    else
      var previous := BossAfterCorrectAnswers(playerHealth, bossHealth, k - 1);
      match ResolveTurn(TurnRequest(true, playerHealth, previous))
      case Ok(t) => t.newBossHealth
      case Err(_) => previous
  }

  /** A boss with b health points is at 0 after exactly b right answers, and still above 0 before. */
  lemma {:induction false} BossFallsAfterItsHealth(playerHealth: nat, bossHealth: nat, k: nat)
    requires k <= bossHealth
    ensures BossAfterCorrectAnswers(playerHealth, bossHealth, k) == bossHealth - k
  {
    if k > 0 {
      BossFallsAfterItsHealth(playerHealth, bossHealth, k - 1);
      var data := TurnRequest(true, playerHealth, bossHealth - (k - 1));
      assert HasRequiredKeys(data);
      assert data[BossHealthKey] == JInt(bossHealth - (k - 1));
      assert data[PlayerHealthKey] == JInt(playerHealth);
      assert data[WasAnswerCorrectKey] == JBool(true);
    }
  }
}
