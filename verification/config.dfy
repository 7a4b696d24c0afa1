/** Environment-driven settings: the upload size ceiling, the image content-type
    allow-list and the warmup switch. Environment values are passed in, absent when unset. */
module Config {
  import opened Results

  /** The ceiling used when OCR_MAX_FILE_SIZE is unset: 10 MiB. */
  const DEFAULT_MAX_FILE_SIZE: int := 10485760

  /** MAX_FILE_SIZE, from the already-parsed OCR_MAX_FILE_SIZE setting. */
  function MaxFileSize(setting: Option<int>): (limit: int)
    ensures setting.None? ==> limit == 10 * 1024 * 1024
    ensures setting.Some? ==> limit == setting.value
  {
    setting.OrElse(DEFAULT_MAX_FILE_SIZE)
  }

  /** ALLOWED_IMAGE_TYPES, in the order the configuration lists them. */
  const ALLOWED_IMAGE_TYPES: seq<string> :=
    ["image/jpeg", "image/jpg", "image/png", "image/bmp", "image/tiff", "image/webp"]

  predicate HasPrefix(s: string, p: string) {
    |p| <= |s| && s[..|p|] == p
  }

  /** Every allowed type is an `image/` type, so no `application/` type is ever allowed
      (membership is exact string equality with one entry). */
  lemma AllowedTypesAreImageTypes(t: string)
    ensures t in ALLOWED_IMAGE_TYPES ==> HasPrefix(t, "image/")
    ensures HasPrefix(t, "application/") ==> t !in ALLOWED_IMAGE_TYPES
  {
    if t in ALLOWED_IMAGE_TYPES {
      assert HasPrefix(t, "image/");
    }
  }

  /** The ASCII lower-case of a character. */
  function LowerChar(c: char): char {
    if 'A' <= c <= 'Z' then (c as int - 'A' as int + 'a' as int) as char else c
  }

  function Lower(s: string): (r: string)
    ensures |r| == |s|
  {
    seq(|s|, k requires 0 <= k < |s| => LowerChar(s[k]))
  }

  /** WARMUP_ENABLED: the OCR_WARMUP_ENABLED setting (default "true") lower-cased equals "true". */
  function WarmupEnabled(setting: Option<string>): (on: bool)
    ensures setting.None? ==> on
    ensures on ==> |setting.OrElse("true")| == 4
    ensures setting.Some? && setting.value == "false" ==> !on
  {
    Lower(setting.OrElse("true")) == "true"
  }

  /** Warmup is on exactly for the four letters t, r, u, e in any mix of cases, and when unset. */
  lemma WarmupEnabledIff(setting: Option<string>)
    ensures setting.None? ==> WarmupEnabled(setting)
    ensures setting.Some? ==>
      (WarmupEnabled(setting) <==>
         var s := setting.value;
         |s| == 4 && s[0] in "tT" && s[1] in "rR" && s[2] in "uU" && s[3] in "eE")
  {
    if setting.Some? {
      var s := setting.value;
      if |s| == 4 && s[0] in "tT" && s[1] in "rR" && s[2] in "uU" && s[3] in "eE" {
        assert Lower(s) == "true";
      }
      if WarmupEnabled(setting) {
        assert Lower(s)[0] == 't' && Lower(s)[1] == 'r' && Lower(s)[2] == 'u' && Lower(s)[3] == 'e';
      }
    } else {
      assert Lower("true") == "true";
    }
  }
}
