/**
 * What the image viewers of every generation share when they hand an image to the system: the
 * download's file name, taken from the file URL, and the Pixiv page address.
 */
module Downloads {
  import opened JavaStrings

  /** The Pixiv page of an illustration is this prefix followed by its id. */
  const PixivPrefix: string := "http://www.pixiv.net/member_illust.php?mode=medium&illust_id="

  /** fileUrl.substring(fileUrl.lastIndexOf("/") + 1): whatever follows the last '/', or the whole URL. */
  function FileName(url: string): (r: string)
    ensures '/' !in r && |r| <= |url| && url[|url| - |r|..] == r
    ensures '/' !in url ==> r == url
  {
    var k := LastIndexOf(url, '/');
    assert url[k + 1..] == url[|url| - |url[k + 1..]|..];
    url[k + 1..]
  }

  /** A URL ending in "/" and a slash-free name downloads under that name. */
  lemma FileNameOfPath(dir: string, name: string)
    requires '/' !in name
    ensures FileName(dir + "/" + name) == name
  {
    var url := dir + "/" + name;
    assert url[|dir|] == '/' && url[|dir| + 1..] == name;
  }
}
