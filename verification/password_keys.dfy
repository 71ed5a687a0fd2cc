/**
 Derivation of the password-safe key under which the password of a project is kept:
 the Base64 text of the project name's bytes with every `=` removed, or a fixed key
 when no project is resolved.
 */
module PasswordKeys {
  import Utf8
  import Base64

  /** Key of the password used when no project is resolved, and of the default password. */
  const DEFAULT_PASSWORD_KEY := "GERRIT_SETTINGS_PASSWORD_KEY"

  /** `getPasswordKey` for the given current project name. */
  function PasswordKey(projectName: string): (key: string)
    ensures key == DEFAULT_PASSWORD_KEY <==> projectName == ""
    ensures projectName != "" ==> forall i :: 0 <= i < |key| ==> Base64.IsDigit(key[i])
    ensures projectName != "" ==> Base64.Decode(key) == Utf8.Encode(projectName)
  {
    if projectName == "" then DEFAULT_PASSWORD_KEY
    else
      var bytes := Utf8.Encode(projectName);
      Base64.StrippedEncodingIsAlphabet(bytes);
      Base64.DecodeStripEncode(bytes);
      var key := Base64.StripPadding(Base64.Encode(bytes));
      // '_' is not in the Base64 alphabet, so the fixed key is never produced.
      assert DEFAULT_PASSWORD_KEY[6] == '_' && !Base64.IsDigit('_');
      key
  }

  /** Distinct project names (the empty name included) never share a password key. */
  lemma PasswordKeyInjective(a: string, b: string)
    requires PasswordKey(a) == PasswordKey(b)
    ensures a == b
  {
    if a != "" && b != "" {
      var ea, eb := Utf8.Encode(a), Utf8.Encode(b);
      Base64.DecodeStripEncode(ea);
      Base64.DecodeStripEncode(eb);
      assert ea == eb;
      Utf8.EncodeInjective(a, b);
    }
  }
}
