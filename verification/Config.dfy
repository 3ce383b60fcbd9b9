/** The configuration file as decoded values (`internal/config/config.go`). */
module Config {
  import opened GoStrings
  import opened Permissions

  datatype Cmd = Cmd(kind: string, arg: string)

  datatype Discord = Discord(token: string, channel: string, webhook: string, logSetting: string)

  /** `image` is `Compose.Image` ("" when `compose` is absent); `stop` is `None` when the list is absent. */
  datatype Server = Server(image: string, stop: Option<seq<Cmd>>, backup: seq<Cmd>, discord: Option<Discord>)

  datatype Config = Config(users: map<string, User>, servers: map<string, Server>)

  /** Go's map lookup: a missing user is the zero user. */
  function UserOf(cfg: Config, name: string): User {
    if name in cfg.users then cfg.users[name] else NO_USER
  }

  lemma NoUserHoldsNothing(server: string, required: string)
    ensures !HasPermission(NO_USER, server, required)
  {
  }
}
