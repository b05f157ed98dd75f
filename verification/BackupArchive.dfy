/** The archive between backup and restore: ZIP members, and the manifest as a Python value. */
module BackupArchive {
  import opened Wrappers
  import opened Bytes

  /** A value `json.loads` can give. */
  datatype Py =
    | PyNone
    | PyFloat
    | PyBool(b: bool)
    | PyInt(n: int)
    | PyStr(s: string)
    | PyList(items: seq<Py>)
    | PyDict(entries: map<string, Py>)

  /** One file of the manifest. */
  datatype Entry = Entry(path: string, kind: string, size: nat, sha256: string)

  /** A member of a ZIP file: its name, whether its mode marks a link or a directory, its declared
      size, and what reading it gives, unless its checksum fails. */
  datatype Member = Member(filename: string, notRegular: bool, fileSize: nat, content: Option<Octets>)

  /** What the scripts take from Python: JSON, SHA-256 in hexadecimal digits, `int(digest, 16)`
      accepting, UTC timestamps, and texts that are blank when stripped. */
  datatype Host = Host(
    load: Octets -> Option<Py>, dump: Py -> Octets, hash: Octets -> string,
    isHex: string -> bool, isUtc: string -> bool, isBlank: string -> bool)

  const MAX_MANIFEST_BYTES := 1024 * 1024
  const MAX_MEMBER_BYTES := 1024 * 1024 * 1024
  const MAX_ARCHIVE_BYTES := 10 * 1024 * 1024 * 1024

  // `zip_file.getinfo(name)`: the last member stored under the name.
  function GetInfo(zip: seq<Member>, name: string): Option<Member> {
    if zip == [] then None
    else if zip[|zip| - 1].filename == name then Some(zip[|zip| - 1])
    else GetInfo(zip[..|zip| - 1], name)
  }

  lemma {:induction false} GetInfoFinds(zip: seq<Member>, k: nat)
    requires k < |zip| && forall i, j :: 0 <= i < j < |zip| ==> zip[i].filename != zip[j].filename
    ensures GetInfo(zip, zip[k].filename) == Some(zip[k])
  {
    if k < |zip| - 1 { GetInfoFinds(zip[..|zip| - 1], k); }
  }

  lemma {:induction false} GetInfoMember(zip: seq<Member>, name: string)
    ensures GetInfo(zip, name).Some? ==> GetInfo(zip, name).value in zip && GetInfo(zip, name).value.filename == name
    ensures GetInfo(zip, name).None? ==> forall k :: 0 <= k < |zip| ==> zip[k].filename != name
  {
    if zip != [] { GetInfoMember(zip[..|zip| - 1], name); }
  }
}
