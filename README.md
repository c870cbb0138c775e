# WebAuthn demo server: a verified model

A Dafny model of the back end of a WebAuthn (passkey) demo: `backend/server.js`. The
server keeps two in-memory maps. `users` maps a username to its stored record.
`challenges` maps a username, or the literal key `"login"`, to the 32-byte challenge last
issued under that key. Four POST endpoints drive the ceremonies:

- `/register/start` issues a registration challenge.
- `/register/complete` stores the browser's credential.
- `/login/start` issues the shared login challenge.
- `/login/complete` looks the user up by the assertion's user handle.

Challenges travel as base64url text (section 5 of RFC 4648, no padding).

The model, module by module:

- `Base64` (base64.dfy): standard base 64 (section 4 of RFC 4648) as Node's
  `buffer.toString('base64')` produces it. Also a model of `Buffer.from(s, 'base64')`,
  Node's lenient decoder: it accepts `'-'` and `'_'` as well as `'+'` and `'/'`, stops at
  the first `'='`, and drops a lone trailing sextet. Node documents only that whitespace
  is ignored and that the URL-safe alphabet is accepted; the model skips every
  character outside both alphabets, which agrees with Node on ASCII text (see
  "## Left out" for the rest).
- `Base64Url` (base64url.dfy): `base64urlEncode` (standard base 64 followed by three
  character rewrites) and `base64urlDecode` (a method whose `while` loop appends `'='`).
  Includes the proof that the encoder is the unpadded URL-safe alphabet of RFC 4648, and
  the round trip.
- `Ceremony` (ceremony.dfy): the four handlers as pure transitions over `State(users,
  challenges)`, each returning the new maps and the HTTP reply. Also the invariant, runs of
  request sequences, and lemmas exhibiting how the handlers behave.
- `Handlers` (handlers.dfy): class `Server` with the two maps as fields. Its four methods
  update them in place and are proved against the `Ceremony` transitions.

The handlers are modelled as written, defects included:

- Registration never compares the submitted challenge with the stored one.
- Login never checks that a login challenge exists and verifies no signature.
- Login trusts the user handle.
- The login slot shares its key space with usernames, so a user named `"login"` collides
  with it.

W3C Web Authentication Level 2 asks a relying party for more. Section 7.1 (registering a
new credential) has it compare the challenge in the client data with the one it issued.
Section 7.2 (verifying an authentication assertion) adds the challenge comparison, the
origin check and the signature check against the stored public key. The code does none
of this, and the model follows the code. The lemmas
`RegisterCompleteIgnoresChallenge`, `LoginCompleteIgnoresLoginChallenge`,
`LoginCompleteReplay` and `LoginUserTakeover` show the gaps.

## Model

| member | source | states |
|---|---|---|
| `Base64.Encode` | backend/server.js:25 | the standard text is four characters per started group of three bytes, so its length is a multiple of 4 |
| `Base64.ToSextets` | backend/server.js:25 | splitting n bytes gives ceil(4n/3) six-bit groups |
| `Base64.FromSextets` | backend/server.js:34 | joining q sextets gives floor(3q/4) bytes; leftover bits are dropped |
| `Base64.NodeSextets` | backend/server.js:34 | Node never reads more sextets than the text has characters |
| `Base64.DecodeStdChar` | backend/server.js:34 | every character of the standard alphabet decodes to its own value and is never `'='` |
| `Base64.FromToSextets` | backend/server.js:25-34 | joining the sextets of any byte sequence gives back that sequence |
| `Base64.NodeSextetsStd` | backend/server.js:34 | the decoder reads back every sextet of a standard-alphabet text and stops at the padding after it |
| `Base64.Decode` | backend/server.js:34 | `Buffer.from(s, 'base64')` yields at most three bytes per four characters of its input |
| `Base64.DecodeEncode` | backend/server.js:25-34 | `Buffer.from(b.toString('base64'), 'base64')` equals `b` for every byte sequence |
| `Base64Url.ReplaceAll` | backend/server.js:26-27 | a global one-character replace keeps the length and rewrites exactly the positions holding the searched character |
| `Base64Url.RemoveAll` | backend/server.js:28 | a global one-character removal leaves no occurrence of that character and every other character present or absent as before |
| `Base64Url.Encode` | backend/server.js:25-28 | the encoder's output never contains `'+'`, `'/'` or `'='` |
| `Base64Url.EncodeIsUnpaddedUrl` | backend/server.js:25-28 | the encoder equals the URL and filename safe alphabet (RFC 4648 section 5) over the input's sextets, without padding |
| `Base64Url.EncodeLength` | backend/server.js:25-28 | the encoded length is ceil(4n/3) for n input bytes |
| `Base64Url.Unrewrite` | backend/server.js:32 | the two rewrites keep the length, turn every `'-'` into `'+'` and every `'_'` into `'/'`, and leave every other character in place |
| `Base64Url.PadCount` | backend/server.js:33 | the loop appends the one count of `'='` below 4 that brings the length to a multiple of 4 |
| `Base64Url.Repadded` | backend/server.js:32-33 | the text fed to the decoder has a length that is a multiple of 4 and at most 3 more than the input; it starts with the rewritten input and continues with `'='` only |
| `Base64Url.Decode` | backend/server.js:31-35 | the decode loop stops with exactly the re-padded text, and the result is Node's decoding of it |
| `Base64Url.RepaddedEncode` | backend/server.js:25-33 | re-padding an encoded value restores exactly the standard padded text that the encoder started from |
| `Base64Url.RoundTrip` | backend/server.js:25-35 | `base64urlDecode(base64urlEncode(b)) == b` for every byte sequence `b` |
| `Ceremony.CreationOptionsFor` | backend/server.js:50-74 | the registration options name the user by the username (id, name and display name) and the relying party as "WebAuthn Demo" on `localhost`; they offer ES256 (-7) and RS256 (-257), a 60000 ms timeout, "none" attestation, a required resident key, "preferred" user verification and the `credProps` extension; the challenge is 43 characters without `'='` and decodes, with the server's decoder, to the issued bytes |
| `Ceremony.RequestOptionsFor` | backend/server.js:105-111 | the login options carry the relying-party id `localhost`, a 60000 ms timeout and "preferred" user verification; the challenge is 43 characters without `'='` and decodes to the issued bytes |
| `Ceremony.RegisterStart` | backend/server.js:40-77 | errors with 400 iff the username is empty ("Username is required") or already registered ("User already exists"), and then changes nothing; otherwise the reply is the registration options for that username and challenge, `users` is unchanged and `challenges[username]` is the fresh challenge, replacing any earlier one, with every other key unchanged |
| `Ceremony.RegisterComplete` | backend/server.js:82-95 | errors with 400 iff no challenge is stored under the username, and then changes nothing; otherwise stores `{username, credential, registeredAt}` under the username, removes its challenge and leaves every other key untouched |
| `Ceremony.LoginStart` | backend/server.js:100-114 | always succeeds with the login options for the issued challenge and overwrites the single `"login"` slot; `users` and every other challenge key are unchanged |
| `Ceremony.LoginComplete` | backend/server.js:119-137 | succeeds iff the user handle is present and names a registered user, returning that user's username, credential id and registration time and deleting only the `"login"` challenge; an unknown handle gives 404 "User not found" and a missing one gives 500, both without change; `users` never changes |
| `Ceremony.StepPreservesDisjoint` | backend/server.js:40-137 | every handler keeps the invariant that no username other than `"login"` is both registered and pending |
| `Ceremony.RunPreservesDisjoint` | backend/server.js:18-19 | the invariant survives any sequence of requests |
| `Ceremony.ReachableDisjoint` | backend/server.js:18-19 | from the initial empty maps, the invariant holds after any sequence of requests |
| `Ceremony.LoginKeyInBothMaps` | backend/server.js:47 | registering a user named `"login"` and then starting a login puts that key in both maps, so the invariant's exception is needed |
| `Ceremony.StartChallengeDecodes` | backend/server.js:51 | the challenge text in the options of either start endpoint decodes, with the server's decoder, to the bytes it stored |
| `Ceremony.SecondRegisterCompleteFails` | backend/server.js:85-93 | after a successful registration complete, an immediate second one for the same username fails with 400 and changes nothing |
| `Ceremony.RegisterCompleteIgnoresChallenge` | backend/server.js:85 | the reply of registration complete does not depend on the credential, only on whether a challenge is stored under the username; the whole outcome does not depend on which challenge bytes are stored |
| `Ceremony.LoginCompleteTrustsHandle` | backend/server.js:122-127 | two assertions with the same user handle get the same outcome, whatever their signatures and authenticator data |
| `Ceremony.LoginCompleteIgnoresLoginChallenge` | backend/server.js:122-127 | the reply of login complete is the same whether the `"login"` slot is empty or holds any challenge |
| `Ceremony.LoginCompleteReplay` | backend/server.js:119-137 | a successful login assertion, submitted again, succeeds again with the same reply |
| `Ceremony.LoginUserTakeover` | backend/server.js:100-102 | once a user named `"login"` exists, a login start followed by a registration complete for `"login"` succeeds and replaces that user's credential |
| `Ceremony.AliceScenario` | backend/server.js:40-137 | registering `"alice"`, starting a login and completing it with her handle returns her username, credential id and registration time, and the same assertion succeeds a second time |
| `Handlers.Server.constructor` | backend/server.js:18-19 | both maps start empty, and the invariant holds |
| `Handlers.Server.RegisterStart` | backend/server.js:40-77 | updates the maps and replies as `Ceremony.RegisterStart` does, and keeps the invariant |
| `Handlers.Server.RegisterComplete` | backend/server.js:82-95 | updates the maps and replies as `Ceremony.RegisterComplete` does, and keeps the invariant |
| `Handlers.Server.LoginStart` | backend/server.js:100-114 | updates the maps and replies as `Ceremony.LoginStart` does, and keeps the invariant |
| `Handlers.Server.LoginComplete` | backend/server.js:119-137 | updates the maps and replies as `Ceremony.LoginComplete` does, and keeps the invariant |

## Left out

- Express routing, CORS, `express.json`, dotenv and `app.listen` (backend/server.js:1-15, 142-146): transport and configuration.
- `process.env.RP_ID`: the relying-party id is the constant `"localhost"`, its value when the variable is unset.
- `crypto.randomBytes(32)` and `new Date().toISOString()`: foreign calls. The challenge is a method parameter of type `Challenge` (exactly 32 bytes); the timestamp is a string parameter.
- `Buffer.from(userHandle).toString()`: a UTF-8 decoding done by Node. The user handle is an already-decoded string. A `null` handle, which the browser page sends when the authenticator returns none, makes `Buffer.from` throw; Express answers that with status 500, and that case is modelled.
- `user.id: Buffer.from(username)` in the registration options: modelled as the username string itself, without its UTF-8 bytes or the JSON form of a Node `Buffer`.
- Request bodies of other shapes: missing fields, or `username` values that are not strings. A username is a string, and for a string, JavaScript's `!username` holds exactly when it is empty. A missing `credential` object in `/login/complete` would also throw; only the missing user handle is modelled.
- Base64.NodeSextets: a Dafny string is a sequence of Unicode scalar values, while Node's decoder reads the low byte of each UTF-16 code unit. A character above U+00FF is skipped here, but Node may read it as alphabet characters (U+20441, the surrogate pair `\uD841\uDC41`, reads as `"AA"`). The two agree on ASCII text, which is all the server's encoder produces. Node's buffer pre-sizing and platform-specific fast paths are not modelled either.
- Base64Url.Repadded: counts the input's length in Unicode scalar values, where JavaScript's `str.length` counts UTF-16 code units, so for text with characters outside the Basic Multilingual Plane the number of `'='` appended differs from Node's. Since decoding stops at the first `'='`, this changes no decoded byte; on ASCII text the counts agree.
- Signature, attestation, client-data and origin verification, challenge expiry, and rejection of replays: the source does none of them, so the model does not either.
- Concurrency between request handlers: the model is sequential, one request at a time.
- The React pages (src/pages/Register.tsx, src/pages/Login.tsx, src/pages/Profile.tsx, src/App.tsx): UI, `fetch`, `navigator.credentials` and `localStorage`, outside the server.
