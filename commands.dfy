/** The `nmcli` command lines the controller issues, as argument vectors after `nmcli`. */
module Commands {
  import opened Wrappers

  /** The list request of `run_scan`. */
  const ScanArgv: seq<string> :=
    ["-f", "IN-USE,SSID,BSSID,SECURITY,SIGNAL", "--mode", "multiline", "--terse", "dev", "wifi", "list"]

  /** Bring up the saved profile named `ssid` (password already cached). */
  function UpArgv(ssid: string): seq<string> {
    ["con", "up", "id", ssid]
  }

  /** Connect to the access point `bssid`, passing a password only when one was typed. */
  function NewConnectionArgv(bssid: string, password: string): (argv: seq<string>)
    ensures |argv| >= 4 && argv[..4] == ["dev", "wifi", "connect", bssid]
    ensures password == "" ==> |argv| == 4
    ensures password != "" ==> argv[4..] == ["password", password]
  {
    ["dev", "wifi", "connect", bssid] + (if password == "" then [] else ["password", password])
  }

  /** `disconnect`: nothing for an empty name, otherwise bring that profile down. */
  function DisconnectArgv(name: string): (r: Option<seq<string>>)
    ensures r.None? <==> name == ""
    ensures r.Some? ==> r.value == ["con", "down", "id", name]
  {
    if name == "" then None else Some(["con", "down", "id", name])
  }

  /** `forget_password`: nothing for an empty name, otherwise delete that profile. */
  function ForgetArgv(name: string): (r: Option<seq<string>>)
    ensures r.None? <==> name == ""
    ensures r.Some? ==> r.value == ["connection", "delete", name]
  {
    if name == "" then None else Some(["connection", "delete", name])
  }

  /** `log` with the command `cmd` appended, if there is one. */
  function Issue(log: seq<seq<string>>, cmd: Option<seq<string>>): seq<seq<string>> {
    if cmd.Some? then log + [cmd.value] else log
  }
}
