/** The older launcher's configuration: a record with a fixed set of fields,
    its default, and the edits the command line can make through the
    mutable handle. */
module LegacyConfigs {
  import opened Wrappers
  import Java
  import Configs
  import Text

  /** The stored record. The sizes are 32-bit integers in the program; no
      operation here does arithmetic on them. */
  datatype Config = Config(
    minRam: int,
    maxRam: int,
    width: int,
    height: int,
    username: string,
    accessToken: string,
    currentJavaPath: string)

  /** The panic of indexing the empty Java list. */
  const NoJavaListed: string := "index out of bounds: the len is 0 but the index is 0"

  /** `Config::default`: 512/2048 MB, an 854x480 window, the user `dev` with
      token `0`, and the first Java `java::list()` reports. With no Java
      listed the indexing panics. */
  function Default(javas: seq<Java.JavaInstallation>): (r: Result<Config, Error>)
    ensures r.Err? <==> |javas| == 0
    ensures r.Err? ==> r.error == Panic(NoJavaListed)
    ensures r.Ok? ==> r.value.minRam == 512 && r.value.maxRam == 2048
    ensures r.Ok? ==> r.value.width == 854 && r.value.height == 480
    ensures r.Ok? ==> r.value.username == "dev" && r.value.accessToken == "0"
    ensures r.Ok? ==> r.value.currentJavaPath == javas[0].path
  {
    if |javas| == 0 then Err(Panic(NoJavaListed))
    else Ok(Config(512, 2048, 854, 480, "dev", "0", javas[0].path))
  }

  /** The two defaults agree: when the older launcher lists the Java
      installations in the order the current one sorts them, both pick the
      same Java, and the current default's RAM sizes and credentials are the
      decimal renderings of the older record's fields. */
  lemma DefaultsAgree(m: Java.JavaManager)
    requires |Java.List(m)| > 0
    ensures var prev := Default(Java.List(m));
      var cur := Configs.CreateDefault(m);
      && prev.Ok? && cur.Ok?
      && Configs.Get(cur.value, "current_java_path") == Some(prev.value.currentJavaPath)
      && Configs.Get(cur.value, "min_ram") == Some(Text.IntToDecimal(prev.value.minRam))
      && Configs.Get(cur.value, "max_ram") == Some(Text.IntToDecimal(prev.value.maxRam))
      && Configs.Get(cur.value, "auth_player_name") == Some(prev.value.username)
      && Configs.Get(cur.value, "auth_access_token") == Some(prev.value.accessToken)
  {
    assert Text.NatToDecimal(512) == "512" by {
      assert Text.NatToDecimal(5) == "5";
      assert Text.NatToDecimal(51) == "51";
    }
    assert Text.NatToDecimal(2048) == "2048" by {
      assert Text.NatToDecimal(2) == "2";
      assert Text.NatToDecimal(20) == "20";
      assert Text.NatToDecimal(204) == "204";
    }
  }

  /** `ConfigMut::set_name`: the user name changes, nothing else does. */
  function SetName(c: Config, name: string): (r: Config)
    ensures r.username == name
    ensures r.(username := c.username) == c
  {
    c.(username := name)
  }

  /** `ConfigMut::set_access_token`: the token changes, nothing else
      does. */
  function SetAccessToken(c: Config, token: string): (r: Config)
    ensures r.accessToken == token
    ensures r.(accessToken := c.accessToken) == c
  {
    c.(accessToken := token)
  }

  const NoValue: string := "couldnt find value"

  const NoEntry: string := "couldnt find entry"

  /** `ConfigMut::set_entry`: the two known entry names set their field from
      the value; a known name without a value is refused, and any other name
      is refused. A refused edit leaves the record as it was. */
  function SetEntry(c: Config, entry: string, value: Option<string>): (r: (Result<(), string>, Config))
    ensures r.0.Ok? <==> (entry == "config.access_token" || entry == "config.username") && value.Some?
    ensures r.0.Err? ==> r.1 == c
    ensures r.0.Err? && (entry == "config.access_token" || entry == "config.username") ==> r.0.error == NoValue
    ensures r.0.Err? && entry != "config.access_token" && entry != "config.username" ==> r.0.error == NoEntry
    ensures r.0.Ok? && entry == "config.access_token" ==> r.1.accessToken == value.value && r.1.(accessToken := c.accessToken) == c
    ensures r.0.Ok? && entry == "config.username" ==> r.1.username == value.value && r.1.(username := c.username) == c
  {
    if entry == "config.access_token" then
      if value.Some? then (Ok(()), c.(accessToken := value.value)) else (Err(NoValue), c)
    else if entry == "config.username" then
      if value.Some? then (Ok(()), c.(username := value.value)) else (Err(NoValue), c)
    else (Err(NoEntry), c)
  }

  /** The named entries are the dedicated setters, and each edit is
      independent of the other: setting the name and the token in either
      order gives the same record. */
  lemma SetEntryIsSetter(c: Config, name: string, token: string)
    ensures SetEntry(c, "config.username", Some(name)) == (Ok(()), SetName(c, name))
    ensures SetEntry(c, "config.access_token", Some(token)) == (Ok(()), SetAccessToken(c, token))
    ensures SetName(SetAccessToken(c, token), name) == SetAccessToken(SetName(c, name), token)
  {
  }
}
