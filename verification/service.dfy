/** The "mediasoup WebRTC Server" service: an immutable record of connection
    settings whose getters hide the credentials unless authentication is on. */
module MediasoupService {
  import opened Host

  /** The only output type this service offers. */
  const OUTPUT_TYPE: string := "mediasoup_output"

  /** The values `obs_data_get_string` / `obs_data_get_bool` return for the
      service's settings keys (an unset key reads as "" or false). */
  datatype Settings = Settings(
    server: string,
    key: string,
    useAuth: bool,
    username: string,
    password: string)

  /** `struct webrtc_mediasoup`; every string field is a nullable `char *`. */
  datatype Service = Service(
    server: CString,
    key: CString,
    useAuth: bool,
    username: CString,
    password: CString,
    output: CString)

  /** The record `bzalloc` hands out: every pointer NULL, `use_auth` false. */
  const ZEROED: Service := Service(Null, Null, false, Null, Null, Null)

  /** Replaces every field from the settings; the previous contents are freed,
      never read. */
  function Update(service: Service, settings: Settings): (r: Service)
    ensures r.server == Str(settings.server) && r.key == Str(settings.key)
    ensures r.username == Str(settings.username) && r.password == Str(settings.password)
    ensures r.useAuth == settings.useAuth
    ensures r.output == Str(OUTPUT_TYPE)
  {
    Service(Str(settings.server), Str(settings.key), settings.useAuth,
            Str(settings.username), Str(settings.password), Str(OUTPUT_TYPE))
  }

  /** A zeroed record followed by an update: every string field is set from
      the settings (none is left NULL), with the mediasoup output type. */
  function Create(settings: Settings): (r: Service)
    ensures r.server == Str(settings.server) && r.key == Str(settings.key)
    ensures r.username == Str(settings.username) && r.password == Str(settings.password)
    ensures r.useAuth == settings.useAuth
    ensures r.output == Str(OUTPUT_TYPE)
    ensures r == Update(r, settings)
  {
    Update(ZEROED, settings)
  }

  function Url(service: Service): CString
  {
    service.server
  }

  function Key(service: Service): CString
  {
    service.key
  }

  /** The user name, or NULL while authentication is off. */
  function Username(service: Service): (r: CString)
    ensures !service.useAuth ==> r == Null
    ensures service.useAuth ==> r == service.username
  {
    if !service.useAuth then Null else service.username
  }

  /** The password, or NULL while authentication is off. */
  function Password(service: Service): (r: CString)
    ensures !service.useAuth ==> r == Null
    ensures service.useAuth ==> r == service.password
  {
    if !service.useAuth then Null else service.password
  }

  function OutputType(service: Service): CString
  {
    service.output
  }

  /** The result of an update does not depend on what the record held before,
      so updating twice with the same settings changes nothing more. */
  lemma UpdateForgetsPrevious(a: Service, b: Service, settings: Settings)
    ensures Update(a, settings) == Update(b, settings)
    ensures Update(Update(a, settings), settings) == Update(a, settings)
  {
  }

  /** What each getter returns for a record built from settings: url and key
      unconditionally, the credentials only when `use_auth` is set (NULL
      otherwise), and always the mediasoup output type. */
  lemma GettersAfterCreate(settings: Settings)
    ensures Url(Create(settings)) == Str(settings.server)
    ensures Key(Create(settings)) == Str(settings.key)
    ensures Username(Create(settings)) == (if settings.useAuth then Str(settings.username) else Null)
    ensures Password(Create(settings)) == (if settings.useAuth then Str(settings.password) else Null)
    ensures OutputType(Create(settings)) == Str(OUTPUT_TYPE)
  {
  }

  /** For a record built by `Create`, the password getter yields a non-empty
      string exactly when authentication is on and a non-empty password was set. */
  lemma PasswordPresentIff(settings: Settings)
    ensures OrEmpty(Password(Create(settings))) != "" <==> settings.useAuth && settings.password != ""
  {
  }
}
