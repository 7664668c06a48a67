/** The part of framework/config.py's ProjectConfig that reload and routing look at. */
module Projects {

  /**
   * dir is the name of the app's directory, prefix its normalized api_prefix; body stands
   * for every other field of the configuration.
   */
  datatype Project = Project(dir: string, slug: string, prefix: string, body: int)
}
