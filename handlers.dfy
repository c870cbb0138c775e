/**
 * The four POST handlers of backend/server.js as methods of one object that
 * owns the module-level `users` and `challenges` maps and updates them in
 * place. Each method is proved against the matching transition of module
 * Ceremony, where the properties of the ceremony are stated and proved.
 */
module Handlers {
  import opened Wrappers
  import opened Ceremony

  class Server {
    var users: map<string, UserRecord>
    var challenges: map<string, Challenge>

    function Current(): (s: State)
      reads this
    {
      State(users, challenges)
    }

    /** The invariant every handler keeps: usernames other than "login" are
        never registered and pending at once. */
    ghost predicate Valid()
      reads this
    {
      Disjoint(Current())
    }

    /** Both maps start empty. */
    constructor ()
      ensures Valid()
      ensures users == map[] && challenges == map[]
    {
      users := map[];
      challenges := map[];
    }

    method RegisterStart(username: string, challenge: Challenge) returns (reply: Reply<CreationOptions>)
      requires Valid()
      modifies this
      ensures Valid()
      ensures Outcome(Current(), reply) == Ceremony.RegisterStart(old(Current()), username, challenge)
      ensures users == old(users)
      ensures reply.Err? ==> challenges == old(challenges)
      ensures reply.Ok? ==> challenges == old(challenges)[username := challenge]
    {
      if username == "" {
        return Err(400, "Username is required");
      }
      if username in users {
        return Err(400, "User already exists");
      }
      challenges := challenges[username := challenge];
      reply := Ok(CreationOptionsFor(username, challenge));
    }

    method RegisterComplete(username: string, credential: Credential, registeredAt: string) returns (reply: Reply<()>)
      requires Valid()
      modifies this
      ensures Valid()
      ensures Outcome(Current(), reply) == Ceremony.RegisterComplete(old(Current()), username, credential, registeredAt)
      ensures reply.Err? ==> users == old(users) && challenges == old(challenges)
      ensures reply.Ok? ==> users == old(users)[username := UserRecord(username, credential, registeredAt)]
      ensures reply.Ok? ==> challenges == old(challenges) - {username}
    {
      if username !in challenges {
        return Err(400, "No challenge found for user");
      }
      users := users[username := UserRecord(username, credential, registeredAt)];
      challenges := challenges - {username};
      reply := Ok(());
    }

    method LoginStart(challenge: Challenge) returns (reply: Reply<RequestOptions>)
      requires Valid()
      modifies this
      ensures Valid()
      ensures Outcome(Current(), reply) == Ceremony.LoginStart(old(Current()), challenge)
      ensures users == old(users)
      ensures challenges == old(challenges)[LoginKey := challenge]
    {
      challenges := challenges[LoginKey := challenge];
      reply := Ok(RequestOptionsFor(challenge));
    }

    method LoginComplete(assertion: Assertion) returns (reply: Reply<Profile>)
      requires Valid()
      modifies this
      ensures Valid()
      ensures Outcome(Current(), reply) == Ceremony.LoginComplete(old(Current()), assertion)
      ensures users == old(users)
      ensures reply.Err? ==> challenges == old(challenges)
      ensures reply.Ok? ==> challenges == old(challenges) - {LoginKey}
    {
      if assertion.userHandle.None? {
        return Err(500, "Internal Server Error");
      }
      var userHandle := assertion.userHandle.value;
      if userHandle !in users {
        return Err(404, "User not found");
      }
      var user := users[userHandle];
      challenges := challenges - {LoginKey};
      reply := Ok(Profile(user.username, user.credential.id, user.registeredAt));
    }
  }
}
