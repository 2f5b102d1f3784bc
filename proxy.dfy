/** The server's configuration and credential store: the source's `Proxy`.
    The lock around the user map is not modelled; the map is a plain field. */
module Proxies {
  import opened Wrappers
  import opened Utf8
  import opened AuthMethods

  class Proxy {
    /** The enabled methods; set once by `new`. */
    const authMethods: seq<AuthMethod>
    /** Username to password. */
    var users: map<Text, Text>

    /** `Proxy::new`: the given methods and no users. */
    constructor (authMethods: seq<AuthMethod>)
      ensures this.authMethods == authMethods
      ensures users == map[]
      ensures forall u :: GetUser(u) == None
    {
      this.authMethods := authMethods;
      users := map[];
    }

    /** `get_user`: the stored password, if the user exists. */
    function GetUser(username: Text): (r: Option<Text>)
      reads this
      ensures r.Some? <==> username in users
      ensures r.Some? ==> r.value == users[username]
    {
      if username in users then Some(users[username]) else None
    }

    /** `add_user`: inserts or replaces one entry; every other lookup is as before. */
    method AddUser(username: Text, password: Text)
      modifies this
      ensures users == old(users)[username := password]
      ensures GetUser(username) == Some(password)
      ensures forall u :: u != username ==> GetUser(u) == old(GetUser(u))
    {
      users := users[username := password];
    }

    /** `remove_user`: removes one entry, if present; every other lookup is as before. */
    method RemoveUser(username: Text)
      modifies this
      ensures users == old(users) - {username}
      ensures GetUser(username) == None
      ensures forall u :: u != username ==> GetUser(u) == old(GetUser(u))
    {
      users := users - {username};
    }

    /** `check_valid_auth_method`: the method is among the enabled ones. */
    function CheckValidAuthMethod(m: AuthMethod): (ok: bool)
      ensures ok <==> exists i :: 0 <= i < |authMethods| && authMethods[i] == m
    {
      m in authMethods
    }
  }
}
