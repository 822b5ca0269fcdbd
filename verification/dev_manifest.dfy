/** The development build's manifest rename (scripts/set-dev-manifest-plugin.js):
    the extension's name gets a " Dev" postfix unless it already has one, and
    the manifest is rewritten only when the name changed. Reading and writing
    the file are outside the model. */
module DevManifest {
  import opened Strings

  const DevPostfix: string := " Dev"

  /** The name after the rule, and whether the manifest file is rewritten. */
  datatype Rename = Rename(name: string, written: bool)

  function SetDevName(name: string): (r: Rename)
    ensures EndsWith(r.name, DevPostfix)
    ensures r.written <==> !EndsWith(name, DevPostfix)
    ensures !r.written ==> r.name == name
    ensures r.written ==> |r.name| == |name| + |DevPostfix| && r.name[..|name|] == name
  {
    if !EndsWith(name, DevPostfix) then
      var renamed := name + DevPostfix;
      assert renamed[|renamed| - |DevPostfix|..] == DevPostfix;
      assert renamed[..|name|] == name;
      Rename(renamed, true)
    else Rename(name, false)
  }

  /** Running the rule on its own result changes nothing and writes nothing. */
  lemma SetDevNameIdempotent(name: string)
    ensures SetDevName(SetDevName(name).name) == Rename(SetDevName(name).name, false)
  {
  }

  /** Dropping the postfix from a rewritten name gives the original name back. */
  lemma SetDevNameReversible(name: string)
    requires !EndsWith(name, DevPostfix)
    ensures var r := SetDevName(name).name; r[..|r| - |DevPostfix|] == name
  {
  }
}
