/**
 The two access decisions of `api/src/lib.rs`: the bearer-key check of the
 authentication filter and the tier rule of `register_agent`.

 The warp server, its routing and the registration with the resolution
 service that follows the tier check are not modelled.
 */
module Api {
  import opened Results
  import opened Strings
  import opened Agents

  /** `UserTier`. */
  datatype Tier = Free | Paid

  /** The custom rejections the two decisions raise. */
  datatype Rejection = InvalidToken | Unauthorized | PremiumRoleForbidden

  /** The text each rejection carries. */
  function RejectionText(r: Rejection): string {
    match r
    case InvalidToken => "Invalid token"
    case Unauthorized => "Unauthorized"
    case PremiumRoleForbidden => "Free tier cannot use premium roles"
  }

  const BearerPrefix: string := "Bearer "
  const PremiumRole: string := "premium"

  /** `RegisterRequest`: the JSON body of a registration. */
  datatype RegisterRequest = RegisterRequest(name: string, role: string)

  /**
   The authentication filter: the `authorization` header must start with
   `Bearer `, and the rest after that one prefix must be a known access key,
   which is passed on.
   */
  function Authenticate(header: string, keys: map<string, Tier>): (r: Result<string, Rejection>)
    ensures !(BearerPrefix <= header) <==> r == Err(InvalidToken)
    ensures r.Ok? <==> BearerPrefix <= header && header[|BearerPrefix|..] in keys
    ensures r.Ok? ==> header == BearerPrefix + r.value && r.value in keys
    ensures r.Err? ==> r.error != PremiumRoleForbidden
  {
    match StripPrefix(header, BearerPrefix)
    case None => Err(InvalidToken)
    case Some(key) => if key in keys then Ok(key) else Err(Unauthorized)
  }

  /**
   The tier rule of `register_agent` for an authenticated key: a Free key may
   not register the role `premium`; anything else yields the agent
   configuration with the requested name and role.
   */
  function CheckTier(keys: map<string, Tier>, key: string, body: RegisterRequest): (r: Result<AgentConfig, Rejection>)
    requires key in keys
    ensures r.Err? <==> keys[key] == Free && body.role == PremiumRole
    ensures r.Err? ==> r.error == PremiumRoleForbidden
    ensures r.Ok? ==> r.value.name == body.name && r.value.role == body.role
  {
    if keys[key] == Free && body.role == PremiumRole then Err(PremiumRoleForbidden)
    else Ok(AgentConfig(body.name, body.role))
  }

  /**
   A registration request as the route processes it: authentication, then the
   tier rule, giving the configuration handed on for registration.
   */
  function Register(header: string, keys: map<string, Tier>, body: RegisterRequest): (r: Result<AgentConfig, Rejection>)
    ensures r.Ok? <==>
      && BearerPrefix <= header
      && header[|BearerPrefix|..] in keys
      && !(keys[header[|BearerPrefix|..]] == Free && body.role == PremiumRole)
    ensures r.Ok? ==> r.value == AgentConfig(body.name, body.role)
  {
    match Authenticate(header, keys)
    case Err(e) => Err(e)
    case Ok(key) => CheckTier(keys, key, body)
  }

  /**
   Exactly one `Bearer ` is stripped: the header `Bearer <key>` is accepted
   precisely when `<key>` itself is a known key, even if it begins with
   `Bearer ` again.
   */
  lemma BearerKey(key: string, keys: map<string, Tier>)
    ensures Authenticate(BearerPrefix + key, keys) == (if key in keys then Ok(key) else Err(Unauthorized))
  {
    assert (BearerPrefix + key)[|BearerPrefix|..] == key;
  }

  /** A Paid key, or any role but `premium`, always passes the tier rule. */
  lemma TierPasses(keys: map<string, Tier>, key: string, body: RegisterRequest)
    requires key in keys
    requires keys[key] == Paid || body.role != PremiumRole
    ensures CheckTier(keys, key, body) == Ok(AgentConfig(body.name, body.role))
  {
  }

  /**
   End to end: a known key presented as `Bearer <key>` registers the
   requested configuration unless it is a Free key asking for `premium`.
   */
  lemma RegisterWithKey(key: string, keys: map<string, Tier>, body: RegisterRequest)
    requires key in keys
    ensures Register(BearerPrefix + key, keys, body) ==
      if keys[key] == Free && body.role == PremiumRole then Err(PremiumRoleForbidden)
      else Ok(AgentConfig(body.name, body.role))
  {
    BearerKey(key, keys);
  }

  /** Without the prefix the request is refused before any key or tier is looked at. */
  lemma RegisterWithoutBearer(header: string, keys: map<string, Tier>, body: RegisterRequest)
    requires !(BearerPrefix <= header)
    ensures Register(header, keys, body) == Err(InvalidToken)
  {
  }
}
