/** The server configuration carried in the name of the executable: the printer of
    src/naming.rs and the parser of src/custom_server.rs, and when they undo each other. */
module CustomServer {
  import opened Common
  import opened Text
  import opened Base64Url

  datatype Server = Server(key: string, host: string, api: string, relay: string)

  /** The code the two files call and do not contain: the JSON printer and reader, and
      the opening of a signed message, which yields the message. */
  datatype Library = Library(
    toJson: Server -> seq<byte>,
    fromJson: seq<byte> -> Option<Server>,
    verify: seq<byte> -> Option<seq<byte>>)

  /** What a JSON library promises about one configuration: an object in braces that reads
      back as the same configuration. */
  ghost predicate Faithful(lib: Library, lic: Server) {
    var b := lib.toJson(lic);
    && lib.fromJson(b) == Some(lic)
    && |b| >= 2 && b[0] == '{' as int && b[|b| - 1] == '}' as int
  }

  // ----- printing -----

  function GenName(lib: Library, lic: Server): string {
    Reverse(Encode(lib.toJson(lic)))
  }

  // ----- parsing -----

  function FromConfigString(lib: Library, s: string): Option<Server> {
    match Decode(Reverse(s))
    case None => None
    case Some(data) =>
      match lib.fromJson(data)
      case Some(lic) => Some(lic)
      case None =>
        match lib.verify(data)
        case Some(message) => lib.fromJson(message)
        case None => None
  }

  function StripExe(s: string): string {
    if EndsWith(Lower(s), ".exe.exe") then s[..|s| - 8]
    else if EndsWith(Lower(s), ".exe") then s[..|s| - 4]
    else s
  }

  const LICENSED := "-licensed-"
  const LICENSED2 := "-licensed--"
  const LICENSED3 := "-licensed---"

  function Normalise(s: string): string {
    Replace(Replace(Replace(s, LICENSED3, "--"), LICENSED2, "--"), LICENSED, "--")
  }

  /** The first of `pieces` that is a configuration. */
  function FirstConfig(lib: Library, pieces: seq<string>): Option<Server> {
    if pieces == [] then None
    else
      var r := FromConfigString(lib, Trim(pieces[0]));
      if r.Some? then r else FirstConfig(lib, pieces[1..])
  }

  /** A piece is a configuration, or one of its parts between parentheses is. */
  function FromPiece(lib: Library, piece: string): Option<Server> {
    var r := FromConfigString(lib, Trim(piece));
    if r.Some? then r
    else if '(' in piece then FirstConfig(lib, Split(piece, "("))
    else None
  }

  function FirstPiece(lib: Library, pieces: seq<string>): Option<Server> {
    if pieces == [] then None
    else
      var r := FromPiece(lib, pieces[0]);
      if r.Some? then r else FirstPiece(lib, pieces[1..])
  }

  /** The position of the first occurrence of `p` in `s` from `from` on. */
  function Find(s: string, p: string, from: nat): (i: nat)
    requires exists k :: from <= k <= |s| && At(s, p, k)
    ensures from <= i && At(s, p, i) && forall k :: from <= k < i ==> !At(s, p, k)
    decreases |s| - from
  {
    if At(s, p, from) then from
    else Find(s, p, from + 1)
  }

  /** The text after `name` in the last part that starts with it, in any letter case. */
  function LastField(parts: seq<string>, name: string): string {
    if parts == [] then ""
    else
      var last := parts[|parts| - 1];
      if name <= Lower(last) then last[|name|..] else LastField(parts[..|parts| - 1], name)
  }

  function FromParts(parts: seq<string>): Server {
    Server(LastField(parts, "key="), LastField(parts, "host="), LastField(parts, "api="), LastField(parts, "relay="))
  }

  function ParseName(lib: Library, name: string): Option<Server> {
    var s := StripExe(name);
    if Contains(Lower(s), "host=") then
      Some(FromParts(Split(s[Find(Lower(s), "host=", 0)..], ",")))
    else
      FirstPiece(lib, Split(Normalise(s), "--"))
  }

  // ----- the parser as the client runs it -----

  method FindField(parts: seq<string>) returns (r: Server)
    ensures r == FromParts(parts)
  {
    var host, key, api, relay := "", "", "", "";
    for i := 0 to |parts|
      invariant Server(key, host, api, relay) == FromParts(parts[..i])
    {
      assert parts[..i + 1][..i] == parts[..i];
      var el := parts[i];
      var lower := Lower(el);
      if "host=" <= lower { host := el[5..]; }
      if "key=" <= lower { key := el[4..]; }
      if "api=" <= lower { api := el[4..]; }
      if "relay=" <= lower { relay := el[6..]; }
    }
    assert parts[..|parts|] == parts;
    r := Server(key, host, api, relay);
  }

  method GetCustomServerFromString(lib: Library, name: string) returns (r: Option<Server>)
    ensures r == ParseName(lib, name)
  {
    var s := StripExe(name);
    if Contains(Lower(s), "host=") {
      var server := FindField(Split(s[Find(Lower(s), "host=", 0)..], ","));
      return Some(server);
    }
    var pieces := Split(Normalise(s), "--");
    for i := 0 to |pieces|
      invariant FirstPiece(lib, pieces) == FirstPiece(lib, pieces[i..])
    {
      var piece := pieces[i];
      var lic := FromConfigString(lib, Trim(piece));
      if lic.Some? {
        return lic;
      } else if '(' in piece {
        var parts := Split(piece, "(");
        for j := 0 to |parts|
          invariant FirstConfig(lib, parts) == FirstConfig(lib, parts[j..])
        {
          lic := FromConfigString(lib, Trim(parts[j]));
          if lic.Some? {
            return lic;
          }
          assert parts[j..][1..] == parts[j + 1..];
        }
      }
      assert pieces[i..][1..] == pieces[i + 1..];
    }
    r := None;
  }
}
