/**
 The configuration helpers of main.go: locating the configuration file
 (`findConf`) and narrowing the configured courses to those named on the
 command line (the course filter at the end of `initConf`). The home
 directory, which the source asks the operating system for, is a parameter.
 */
module Config {
  import opened Strings

  /** The decoded configuration file; `courses` maps a course name to its numeric id. */
  datatype Conf = Conf(
    username: string,
    path: string,
    rootURL: string,
    password: string,
    passwordCmd: string,
    courses: map<string, int>)

  /** `findConf(configPath)`: the first `~`, if any, becomes the home directory. */
  function FindConf(configPath: string, home: string): string {
    if Contains(configPath, "~") then ReplaceFirst(configPath, "~", home) else configPath
  }

  /** A path without `~` is returned unchanged. */
  lemma FindConfWithoutTilde(configPath: string, home: string)
    requires forall j :: 0 <= j < |configPath| ==> configPath[j] != '~'
    ensures FindConf(configPath, home) == configPath
  {
    forall j: nat ensures !OccursAt(configPath, "~", j) {
      OccursAtChar(configPath, '~', j);
    }
  }

  /** Only the first `~` is replaced; everything before and after it, later `~`s included, is kept. */
  lemma FindConfReplacesFirstTilde(configPath: string, home: string, i: nat)
    requires i < |configPath| && configPath[i] == '~'
    requires forall j :: 0 <= j < i ==> configPath[j] != '~'
    ensures FindConf(configPath, home) == configPath[..i] + home + configPath[i + 1..]
  {
    OccursAtChar(configPath, '~', i);
    var r := Index(configPath, "~");
    assert r.Some?;
    OccursAtChar(configPath, '~', r.value);
    assert r.value == i;
  }

  /**
   The course filter of `initConf`: with course names given, the result keeps
   exactly the configured courses that are named (unknown names are dropped);
   with none given, the configuration is unchanged. Nothing else is touched.
   */
  method SelectCourses(c: Conf, course: seq<string>) returns (r: Conf)
    ensures |course| == 0 ==> r == c
    ensures |course| != 0 ==>
      r == c.(courses := map k | k in c.courses && k in course :: c.courses[k])
  {
    r := c;
    if |course| != 0 {
      var newCourses: map<string, int> := map[];
      var n := 0;
      while n < |course|
        invariant 0 <= n <= |course|
        invariant newCourses == map k | k in c.courses && k in course[..n] :: c.courses[k]
      {
        var v := course[n];
        if v in c.courses {
          newCourses := newCourses[v := c.courses[v]];
        }
        assert course[..n + 1] == course[..n] + [v];
        n := n + 1;
      }
      assert course[..n] == course;
      r := r.(courses := newCourses);
    }
  }
}
