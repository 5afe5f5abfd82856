/** The template files under ./channel/, one per channel, modelled as a map
    from file name to contents. Writes are fire-and-forget in the source;
    their errors and their asynchrony are not modelled. */
module Store {
  import opened Js

  /** `channel.substring(1)`: the channel name without its sigil. */
  function FileName(channel: string): string
  {
    Substring(channel, 1)
  }

  /** `fs.writeFile('./channel/' + channel.substring(1), pattern)`. */
  function Write(files: map<string, string>, channel: string, pattern: string): (r: map<string, string>)
    ensures r.Keys == files.Keys + {FileName(channel)}
    ensures r[FileName(channel)] == pattern
    ensures forall k :: k in files && k != FileName(channel) ==> r[k] == files[k]
  {
    files[FileName(channel) := pattern]
  }

  /** `fs.unlink('./channel/' + channel.substring(1).toLowerCase())`, as
      written: only the lower-cased file name is removed. */
  function UnlinkAsWritten(files: map<string, string>, channel: string): (r: map<string, string>)
    ensures r.Keys == files.Keys - {Lower(FileName(channel))}
    ensures forall k :: k in r ==> r[k] == files[k]
  {
    files - {Lower(FileName(channel))}
  }

  /** Removes the channel's file whatever the case it was written in: every
      file whose lower-cased name is the channel's lower-cased name. */
  function Unlink(files: map<string, string>, channel: string): (r: map<string, string>)
    ensures forall k :: k in r <==> k in files && Lower(k) != Lower(FileName(channel))
    ensures forall k :: k in r ==> r[k] == files[k]
  {
    map k | k in files && Lower(k) != Lower(FileName(channel)) :: files[k]
  }

  /** As written, a template saved from a channel whose name has an upper-case
      letter survives the part, and is joined again at the next start. */
  lemma PartKeepsMixedCaseFile(files: map<string, string>, pattern: string)
    ensures "Foo" in UnlinkAsWritten(Write(files, "#Foo", pattern), "#Foo")
  {
    assert FileName("#Foo") == "Foo";
    assert Lower("Foo") == "foo" by {
      assert Lower("Foo")[0] == LowerChar('F') == 'f';
    }
  }

  /** The intended behaviour: after a template is saved from a channel, a
      part of that channel, in whatever case it is spelled, leaves no file
      for it. */
  lemma SetThenPartLeavesNoFile(files: map<string, string>, channel: string, spelled: string, pattern: string)
    requires Lower(spelled) == Lower(channel)
    ensures forall k :: k in Unlink(Write(files, channel, pattern), spelled) ==> Lower(k) != Lower(FileName(channel))
  {
    LowerSubstring(channel, 1);
    LowerSubstring(spelled, 1);
  }
}
