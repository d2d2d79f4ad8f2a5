/** Discovery of the Google Drive folders configured through the environment
    (`get_drive_sources`, config.py:10-26).

  The environment is given as the sequence of its `(key, value)` pairs in
  iteration order.
 */
module Config {
  import opened Text

  type Environment = seq<(string, string)>

  const EnvSuffix := "_GOOGLE_DRIVE_DIR"

  /** The variable names a Drive folder. */
  predicate IsSource(key: string) {
    EndsWith(key, EnvSuffix)
  }

  /** `key[:-len(ENV_SUFFIX)].lower()`. */
  function SourceName(key: string): string
    requires IsSource(key)
  {
    Lower(key[..|key| - |EnvSuffix|])
  }

  /** `get_drive_sources`: later variables overwrite earlier ones with the same
      source name. */
  function DriveSources(env: Environment): (r: map<string, string>)
    ensures forall name :: name in r ==> IsLower(name)
  {
    if env == [] then map[]
    else
      var sources := DriveSources(env[..|env| - 1]);
      var (key, value) := env[|env| - 1];
      if IsSource(key) then
        LowerShape(key[..|key| - |EnvSuffix|]);
        sources[SourceName(key) := value]
      else sources
  }

  /** Every variable that ends with the suffix contributes its source name. */
  lemma {:induction false} SourcesComplete(env: Environment, i: nat)
    requires i < |env| && IsSource(env[i].0)
    ensures SourceName(env[i].0) in DriveSources(env)
  {
    var n := |env| - 1;
    if i < n {
      SourcesComplete(env[..n], i);
      assert env[..n][i] == env[i];
    }
  }

  /** Every source comes from a variable that ends with the suffix, and carries
      that variable's value unchanged. */
  lemma {:induction false} SourcesSound(env: Environment, name: string)
    requires name in DriveSources(env)
    ensures exists i ::
              && 0 <= i < |env| && IsSource(env[i].0) && SourceName(env[i].0) == name
              && DriveSources(env)[name] == env[i].1
  {
    var n := |env| - 1;
    var (key, value) := env[n];
    if !(IsSource(key) && SourceName(key) == name) {
      SourcesSound(env[..n], name);
      var i :| 0 <= i < n && IsSource(env[..n][i].0) && SourceName(env[..n][i].0) == name
        && DriveSources(env[..n])[name] == env[..n][i].1;
      assert env[..n][i] == env[i];
    }
  }

  /** A source holds the value of the last variable that maps to its name:
      keys whose prefixes differ only in case collide, and the later one wins. */
  lemma {:induction false} SourcesLastWins(env: Environment, i: nat)
    requires i < |env| && IsSource(env[i].0)
    requires forall j :: i < j < |env| && IsSource(env[j].0) ==> SourceName(env[j].0) != SourceName(env[i].0)
    ensures SourceName(env[i].0) in DriveSources(env)
    ensures DriveSources(env)[SourceName(env[i].0)] == env[i].1
  {
    var n := |env| - 1;
    if i < n {
      var init := env[..n];
      assert init[i] == env[i];
      forall j | i < j < |init| && IsSource(init[j].0)
        ensures SourceName(init[j].0) != SourceName(init[i].0)
      {
        assert init[j] == env[j];
      }
      SourcesLastWins(init, i);
    }
  }

  /** A variable named exactly like the suffix gives the empty source name. */
  lemma BareSuffix(value: string)
    ensures IsSource(EnvSuffix) && SourceName(EnvSuffix) == []
    ensures DriveSources([(EnvSuffix, value)]) == map[[] := value]
  {
    assert [(EnvSuffix, value)][..0] == [];
  }

  /** Two spellings of one prefix name the same source; the later value is kept. */
  lemma CaseCollision()
    ensures DriveSources([("Fotos_GOOGLE_DRIVE_DIR", "a"), ("FOTOS_GOOGLE_DRIVE_DIR", "b")]) == map["fotos" := "b"]
  {
    var env := [("Fotos_GOOGLE_DRIVE_DIR", "a"), ("FOTOS_GOOGLE_DRIVE_DIR", "b")];
    assert env[..1] == [("Fotos_GOOGLE_DRIVE_DIR", "a")];
    assert env[..1][..0] == [];
    assert "Fotos_GOOGLE_DRIVE_DIR"[..5] == "Fotos";
    assert "FOTOS_GOOGLE_DRIVE_DIR"[..5] == "FOTOS";
    assert Lower("Fotos") == "fotos";
    assert Lower("FOTOS") == "fotos";
  }
}
