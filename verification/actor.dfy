/** The actor who triggered the run: the login and the numeric id. */
module Actor {
  import opened Wrappers
  import opened Text
  import opened Configuration
  import opened Models

  /** The id: nothing for a falsy configured id; otherwise `int()` of it, nothing when
      that fails. A configured number is already an integer. */
  function ActorIdValue(id: ActorId): (r: Option<int>)
    ensures id.NoActorId? ==> r.None?
    ensures id.ActorIdNumber? ==> r == if id.n == 0 then None else Some(id.n)
    ensures id.ActorIdRaw? ==> r == if id.raw == "" then None else ParseInt(id.raw)
  {
    match id
    case NoActorId => None
    case ActorIdNumber(n) => if n == 0 then None else Some(n)
    case ActorIdRaw(raw) => if raw == "" then None else ParseInt(raw)
  }

  /** `ActorExtractor.extract`. */
  function ExtractActor(cfg: Config): (r: ActorMetadata)
    ensures r.name == cfg.actor
    ensures r.id == ActorIdValue(cfg.actorId)
  {
    ActorMetadata(cfg.actor, ActorIdValue(cfg.actorId))
  }

  /** From the environment: whether the configuration kept the id as a number or as
      raw text, the actor's id is `int()` of `GITHUB_ACTOR_ID` when it is set and
      parses, and nothing otherwise. */
  lemma ActorIdFromEnv(env: Env, cfg: Config)
    requires cfg.actorId == LoadActorId(env)
    ensures ExtractActor(cfg).id ==
              if Truthy(Get(env, "GITHUB_ACTOR_ID")) then ParseInt(env["GITHUB_ACTOR_ID"]) else None
  {
  }

  /** Zero and negative ids survive: they are kept as raw text by the configuration and
      parsed here. */
  lemma NonPositiveIdKept(env: Env, cfg: Config, n: int)
    requires n <= 0 && "GITHUB_ACTOR_ID" in env && env["GITHUB_ACTOR_ID"] == IntToString(n)
    requires cfg.actorId == LoadActorId(env)
    ensures ExtractActor(cfg).id == Some(n)
  {
    IntToStringRoundTrip(n);
  }
}
