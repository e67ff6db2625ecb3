/**
 * The string renderings of the server models (`Member.__str__`,
 * `ChatMessage.__str__`) and the admin list's `short_content` column.
 * Lengths count code points, as Python's `len` and slicing do.
 */
module Display {

  const PreviewLength := 30
  const ShortLength := 50
  const Ellipsis := "..."

  /** The content part of `ChatMessage.__str__`: the first 30 characters, marked when cut. */
  function MessagePreview(content: string): (p: string)
    ensures |content| <= PreviewLength ==> p == content
    ensures |content| > PreviewLength ==> p == content[..PreviewLength] + Ellipsis
    ensures |p| <= PreviewLength + |Ellipsis|
    ensures p[..if |content| < PreviewLength then |content| else PreviewLength]
         == content[..if |content| < PreviewLength then |content| else PreviewLength]
  {
    var head := if |content| <= PreviewLength then content else content[..PreviewLength];
    if |content| > PreviewLength then head + Ellipsis else head
  }

  /** `ChatMessage.__str__`: the author's username, ": ", then the content preview. */
  function MessageStr(username: string, content: string): (r: string)
    ensures |r| == |username| + 2 + |MessagePreview(content)|
    ensures r[..|username| + 2] == username + ": "
    ensures r[|username| + 2..] == MessagePreview(content)
  {
    username + ": " + MessagePreview(content)
  }

  /** `ChatMessageAdmin.short_content`. */
  function ShortContent(content: string): (r: string)
    ensures content == "" ==> r == ""
    ensures |content| <= ShortLength ==> r == content
    ensures |content| > ShortLength ==> r == content[..ShortLength] + Ellipsis
    ensures |r| <= ShortLength + |Ellipsis|
    ensures r[..if |content| < ShortLength then |content| else ShortLength]
         == content[..if |content| < ShortLength then |content| else ShortLength]
  {
    if content == "" then ""
    else if |content| <= ShortLength then content
    else content[..ShortLength] + Ellipsis
  }

  /** Previewing a preview changes nothing: a cut preview is cut at the same place again. */
  lemma PreviewIdempotent(content: string)
    ensures MessagePreview(MessagePreview(content)) == MessagePreview(content)
  {
    var p := MessagePreview(content);
    if |content| > PreviewLength {
      assert p[..PreviewLength] == content[..PreviewLength];
    }
  }

  /** Shortening a shortened content changes nothing. */
  lemma ShortContentIdempotent(content: string)
    ensures ShortContent(ShortContent(content)) == ShortContent(content)
  {
    var r := ShortContent(content);
    if |content| > ShortLength {
      assert r[..ShortLength] == content[..ShortLength];
    }
  }

  /** Two contents that agree on their first 30 characters and are both cut render alike. */
  lemma PreviewSeesOnlyHead(c1: string, c2: string)
    requires |c1| > PreviewLength && |c2| > PreviewLength
    requires c1[..PreviewLength] == c2[..PreviewLength]
    ensures MessagePreview(c1) == MessagePreview(c2)
  {
  }
}
